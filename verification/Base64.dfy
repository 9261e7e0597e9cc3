/** Base64 as Base64.cpp computes it: a codec over C strings of signed chars on a
    machine whose int is 16 bits wide.  The six-bit arithmetic is done in bit vectors
    and kept out of the proofs about whole strings. */
module Base64 {

  const PAD: bv8 := 61

  /** The codec table: A-Z, a-z, 0-9, + and /. */
  function Codec(q: bv8): bv8
    requires q < 64
  {
    if q < 26 then q + 65 else if q < 52 then q + 71 else if q < 62 then q - 4 else if q == 62 then 43 else 47
  }

  // --------------------------------------------------------------- one block

  /** A signed char widened to 32 bits. */
  function Widen(c: bv8): bv32 { if c < 128 then c as bv32 else c as bv32 | 0xFFFF_FF00 }

  function Or(x: bv32, y: bv32): bv32 { x | y }

  /** The three chars of a block, ORed together. */
  function Bank(a: bv8, b: bv8, c: bv8): bv32 {
    Or(Or(Widen(a) << 16, Widen(b) << 8), Widen(c))
  }

  /** The k-th group of six bits. */
  function Index(bank: bv32, k: nat): (q: bv8)
    requires k < 4
    ensures q < 64
  {
    (if k == 0 then bank << 8 >> 26 else if k == 1 then bank << 14 >> 26 else if k == 2 then bank << 20 >> 26
     else bank << 26 >> 26) as bv8
  }

  /** What entry q of the table contributes for a char. */
  function Hit(c: bv8, q: bv8): bv32
    requires q < 64
  {
    if Codec(q) == c then q as bv32 else 0
  }

  /** What the search through the first n entries contributes. */
  function Found(c: bv8, n: bv8): bv32
    requires n <= 64
    decreases n as int
  {
    if n == 0 then 0 else Or(Found(c, n - 1), Hit(c, n - 1))
  }

  function Value(c: bv8): bv32 { Found(c, 64) }

  function Placed(a: bv32, b: bv32, c: bv32, d: bv32): bv32 {
    Or(Or(Or(a << 26, b << 20), c << 14), d << 8)
  }

  function Unbank(a: bv8, b: bv8, c: bv8, d: bv8): bv32 { Placed(Value(a), Value(b), Value(c), Value(d)) }

  /** The k-th decoded char. */
  function Byte(bank: bv32, k: nat): bv8
    requires k < 3
  {
    ((if k == 0 then bank >> 24 else if k == 1 then bank >> 16 else bank >> 8) & 0xFF) as bv8
  }

  lemma CodecInjective(p: bv8, q: bv8)
    requires p < 64 && q < 64 && Codec(p) == Codec(q)
    ensures p == q
  {
  }

  lemma HitOwn(q: bv8, p: bv8)
    requires q < 64 && p < 64
    ensures Hit(Codec(q), p) == if p == q then q as bv32 else 0
  {
    if Codec(p) == Codec(q) {
      CodecInjective(p, q);
    }
  }

  lemma {:induction false} FoundCodec(q: bv8, n: bv8)
    requires q < 64 && n <= 64
    ensures Found(Codec(q), n) == if q < n then q as bv32 else 0
    decreases n as int
  {
    hide Codec, Hit;
    if n != 0 {
      FoundCodec(q, n - 1);
      HitOwn(q, n - 1);
    }
  }

  lemma HitPad(q: bv8)
    requires q < 64
    ensures Hit(PAD, q) == 0
  {
  }

  lemma {:induction false} FoundPad(n: bv8)
    requires n <= 64
    ensures Found(PAD, n) == 0
    decreases n as int
  {
    hide Hit;
    if n != 0 {
      FoundPad(n - 1);
      HitPad(n - 1);
    }
  }

  /** Four codes put together again give the low 24 bits of the bank. */
  lemma Regroup(bank: bv32)
    ensures Placed(Index(bank, 0) as bv32, Index(bank, 1) as bv32, Index(bank, 2) as bv32, Index(bank, 3) as bv32)
            == bank << 8
  {
  }

  /** What is left of the m-th char of a block: a char at or above 128 sets every bit to
      its left. */
  function Survivor(a: bv8, b: bv8, c: bv8, m: nat): bv8 {
    if m == 0 then if b < 128 && c < 128 then a else 0xFF
    else if m == 1 then if c < 128 then b else 0xFF
    else c
  }

  lemma FirstSurvives(a: bv8, b: bv8, c: bv8)
    ensures Byte(Bank(a, b, c) << 8, 0) == Survivor(a, b, c, 0)
  {
  }

  lemma SecondSurvives(a: bv8, b: bv8, c: bv8)
    ensures Byte(Bank(a, b, c) << 8, 1) == Survivor(a, b, c, 1)
  {
  }

  lemma ThirdSurvives(a: bv8, b: bv8, c: bv8)
    ensures Byte(Bank(a, b, c) << 8, 2) == Survivor(a, b, c, 2)
  {
  }

  lemma Survives(a: bv8, b: bv8, c: bv8, m: nat)
    requires m < 3
    ensures Byte(Bank(a, b, c) << 8, m) == Survivor(a, b, c, m)
  {
    hide *;
    if m == 0 {
      FirstSurvives(a, b, c);
    } else if m == 1 {
      SecondSurvives(a, b, c);
    } else {
      ThirdSurvives(a, b, c);
    }
  }

  // ----------------------------------------------------------- whole strings

  /** A C string: no NUL inside. */
  predicate Text(s: seq<bv8>) { forall i :: 0 <= i < |s| ==> s[i] != 0 }

  /** The char at i, or 0 past the end. */
  function At(s: seq<bv8>, i: nat): bv8 { if i < |s| then s[i] else 0 }

  function BankAt(s: seq<bv8>, k: nat): bv32 { Bank(At(s, 3 * k), At(s, 3 * k + 1), At(s, 3 * k + 2)) }

  /** The length arithmetic of Encode, in 16 bits. */
  function NeededChars(length: nat): nat {
    var bits := length * 8 % 0x1_0000;
    bits / 6 + if bits % 6 > 0 then 1 else 0
  }

  function OutputLength(length: nat): nat {
    var needed := NeededChars(length);
    needed + if needed % 4 > 0 then 4 - needed % 4 else 0
  }

  /** Blocks of three chars, the last one perhaps not full. */
  function Blocks(n: nat): nat { (n + 2) / 3 }

  /** The m-th char of block k: padding where the block has no bits left. */
  function Code(s: seq<bv8>, k: nat, m: nat): bv8
    requires m < 4
  {
    if m >= 2 && 3 * k + m - 1 >= |s| then PAD else Codec(Index(BankAt(s, k), m))
  }

  function Encoded(s: seq<bv8>): (t: seq<bv8>)
    ensures |t| == 4 * Blocks(|s|) && |t| % 4 == 0
  {
    seq(4 * Blocks(|s|), i requires 0 <= i => Code(s, i / 4, i % 4))
  }

  function UnbankAt(t: seq<bv8>, k: nat): bv32
    requires 4 * k + 3 < |t|
  {
    Unbank(t[4 * k], t[4 * k + 1], t[4 * k + 2], t[4 * k + 3])
  }

  /** Every char the decoding loop writes. */
  function Decoded(t: seq<bv8>): (r: seq<bv8>)
    requires |t| % 4 == 0
    ensures |r| == |t| / 4 * 3
  {
    seq(|t| / 4 * 3, i requires 0 <= i < |t| / 4 * 3 => Byte(UnbankAt(t, i / 3), i % 3))
  }

  /** The C string at the start of a buffer. */
  function CString(r: seq<bv8>): seq<bv8> {
    if r == [] || r[0] == 0 then [] else [r[0]] + CString(r[1..])
  }

  /** Neither spoiled by a later char of its block nor immune to it. */
  predicate Kept(s: seq<bv8>, i: nat)
    requires i < |s|
  {
    s[i] == 0xFF || forall j :: i < j < |s| && j / 3 == i / 3 ==> s[j] < 128
  }

  /** No char at or above 128 follows, within its block of three, a char other than 0xFF. */
  predicate Unspoiled(s: seq<bv8>) { forall i :: 0 <= i < |s| ==> Kept(s, i) }

  // -------------------------------------------------------------- round trip

  /** Four output chars for every three input chars or part of three. */
  lemma Lengths(n: nat)
    requires n <= 8191
    ensures OutputLength(n) == 4 * Blocks(n)
    ensures NeededChars(n) == n / 3 * 4 + (if n % 3 == 0 then 0 else n % 3 + 1)
  {
    NeededIs(n / 3, n % 3);
    hide NeededChars;
    PaddedIs(n / 3, if n % 3 == 0 then 0 else n % 3 + 1);
  }

  lemma NeededIs(q: nat, r: nat)
    requires r < 3 && 3 * q + r <= 8191
    ensures NeededChars(3 * q + r) == 4 * q + if r == 0 then 0 else r + 1
  {
    var bits := (3 * q + r) * 8;
    Remainder(bits, 0, bits);
    if r == 0 {
      Divided(bits, 4 * q, 0);
    } else if r == 1 {
      Divided(bits, 4 * q + 1, 2);
    } else {
      Divided(bits, 4 * q + 2, 4);
    }
  }

  /** Padding to a multiple of four. */
  lemma PaddedIs(q: nat, m: nat)
    requires m < 4
    ensures (4 * q + m) % 4 == m
  {
  }

  lemma Divided(x: nat, a: nat, b: nat)
    requires x == 6 * a + b && b < 6
    ensures x / 6 == a && x % 6 == b
  {
  }

  /** The 16-bit length arithmetic is right exactly up to 8191 chars. */
  lemma LengthsIff(n: nat)
    requires n < 0x1_0000
    ensures OutputLength(n) == 4 * Blocks(n) <==> n <= 8191
  {
    hide OutputLength, NeededChars, Blocks;
    if n <= 8191 {
      Lengths(n);
    } else {
      Lengths(n % 8192);
      SameBits(n);
      MoreBlocks(n % 8192, n);
    }
  }

  lemma SameBits(n: nat)
    ensures OutputLength(n) == OutputLength(n % 8192)
  {
    var q, r := n / 8192, n % 8192;
    Remainder(n * 8, q, r * 8);
    Remainder(r * 8, 0, r * 8);
  }

  lemma Remainder(x: nat, q: nat, y: nat)
    requires x == q * 0x1_0000 + y && y < 0x1_0000
    ensures x % 0x1_0000 == y
  {
  }

  lemma MoreBlocks(m: nat, n: nat)
    requires m + 3 <= n
    ensures Blocks(m) < Blocks(n)
  {
  }

  lemma PaddingIsZero(a: bv8, b: bv8, c: bv8, k: nat)
    requires 2 <= k < 4 && c == 0 && (k == 2 ==> b == 0)
    ensures Index(Bank(a, b, c), k) == 0
  {
  }

  /** Padding decodes like the zero bits it stands for. */
  lemma DecodesToIndex(s: seq<bv8>, k: nat, m: nat)
    requires m < 4 && 3 * k < |s|
    ensures Value(Code(s, k, m)) == Index(BankAt(s, k), m) as bv32
  {
    hide Codec, Bank, Index, Found;
    if m >= 2 && 3 * k + m - 1 >= |s| {
      FoundPad(64);
      PaddingIsZero(At(s, 3 * k), At(s, 3 * k + 1), At(s, 3 * k + 2), m);
    } else {
      FoundCodec(Index(BankAt(s, k), m), 64);
    }
  }

  lemma Reassemble(bank: bv32, a: bv8, b: bv8, c: bv8, d: bv8)
    requires Value(a) == Index(bank, 0) as bv32 && Value(b) == Index(bank, 1) as bv32
    requires Value(c) == Index(bank, 2) as bv32 && Value(d) == Index(bank, 3) as bv32
    ensures Unbank(a, b, c, d) == bank << 8
  {
    hide Value, Index, Placed;
    Regroup(bank);
  }

  lemma CodeComesBack(s: seq<bv8>, k: nat)
    requires 3 * k < |s|
    ensures Unbank(Code(s, k, 0), Code(s, k, 1), Code(s, k, 2), Code(s, k, 3)) == BankAt(s, k) << 8
  {
    hide *;
    DecodesToIndex(s, k, 0);
    DecodesToIndex(s, k, 1);
    DecodesToIndex(s, k, 2);
    DecodesToIndex(s, k, 3);
    Reassemble(BankAt(s, k), Code(s, k, 0), Code(s, k, 1), Code(s, k, 2), Code(s, k, 3));
  }

  lemma BlockComesBack(s: seq<bv8>, k: nat)
    requires 3 * k < |s|
    ensures UnbankAt(Encoded(s), k) == BankAt(s, k) << 8
  {
    hide Value, Bank, BankAt, Index, Code, Unbank;
    CodeComesBack(s, k);
  }

  lemma DecodedByte(s: seq<bv8>, i: nat)
    requires i < 3 * Blocks(|s|)
    ensures Decoded(Encoded(s))[i] == Byte(BankAt(s, i / 3) << 8, i % 3)
  {
    hide Bank, BankAt, UnbankAt, Encoded, Byte;
    BlockComesBack(s, i / 3);
  }

  /** What comes back at position i: the char itself, or 0xFF when a later char of its
      block spoils it; past the end, zeros. */
  function Returned(s: seq<bv8>, i: nat): bv8 {
    if i >= |s| then 0 else if Kept(s, i) then s[i] else 0xFF
  }

  lemma SurvivorIsReturned(s: seq<bv8>, i: nat)
    ensures Survivor(At(s, 3 * (i / 3)), At(s, 3 * (i / 3) + 1), At(s, 3 * (i / 3) + 2), i % 3) == Returned(s, i)
  {
    var k := i / 3;
    assert forall j :: i < j < |s| && j / 3 == i / 3 ==> j == 3 * k + 1 || j == 3 * k + 2;
  }

  lemma BankSurvives(s: seq<bv8>, k: nat, m: nat)
    requires m < 3
    ensures Byte(BankAt(s, k) << 8, m) == Survivor(At(s, 3 * k), At(s, 3 * k + 1), At(s, 3 * k + 2), m)
  {
    hide Bank, Byte, Survivor, At;
    Survives(At(s, 3 * k), At(s, 3 * k + 1), At(s, 3 * k + 2), m);
  }

  lemma ByteComesBack(s: seq<bv8>, i: nat)
    requires i < 3 * Blocks(|s|)
    ensures Decoded(Encoded(s))[i] == Returned(s, i)
  {
    hide Byte, BankAt, Encoded, Decoded, Returned, Survivor, At;
    DecodedByte(s, i);
    BankSurvives(s, i / 3, i % 3);
    SurvivorIsReturned(s, i);
  }

  lemma {:induction false} CStringOfText(s: seq<bv8>, r: seq<bv8>)
    requires Text(s) && (r == [] || r[0] == 0)
    ensures CString(s + r) == s
  {
    if s == [] {
      assert s + r == r;
    } else {
      assert (s + r)[1..] == s[1..] + r;
      CStringOfText(s[1..], r);
    }
  }

  /** Base64 of section 4 of RFC 4648 is undone by Decode, read as a C string, exactly for
      the strings in which no char at or above 128 spoils an earlier char of its block; in
      particular for every string of 7-bit chars. */
  lemma RoundTripIff(s: seq<bv8>)
    requires Text(s)
    ensures CString(Decoded(Encoded(s))) == s <==> Unspoiled(s)
  {
    hide Encoded, Decoded, Kept;
    var d := Decoded(Encoded(s));
    forall i | 0 <= i < |d| ensures d[i] == Returned(s, i) {
      ByteComesBack(s, i);
    }
    var x, y := d[..|s|], d[|s|..];
    assert d == x + y;
    CStringOfText(x, y);
    if !Unspoiled(s) {
      var i :| 0 <= i < |s| && !Kept(s, i);
      SpoiledDiffers(s, i);
      assert x[i] != s[i];
    }
  }

  lemma SpoiledDiffers(s: seq<bv8>, i: nat)
    requires i < |s| && !Kept(s, i)
    ensures Returned(s, i) != s[i]
  {
  }

  // ------------------------------------------------------- against the standard

  const UPPER := "ABCDEFGHIJKLMNOPQRSTUVWXYZ"
  const LOWER := "abcdefghijklmnopqrstuvwxyz"
  const OTHERS := "0123456789+/"
  const ALPHABET := UPPER + LOWER + OTHERS

  /** The m-th group of six bits of three bytes, as section 4 of RFC 4648 draws them. */
  function Sextet(a: bv8, b: bv8, c: bv8, m: nat): (q: bv8)
    requires m < 4
    ensures q < 64
  {
    if m == 0 then a >> 2 else if m == 1 then ((a & 3) << 4) | (b >> 4)
    else if m == 2 then ((b & 15) << 2) | (c >> 6)
    else c & 63
  }

  /** The i-th char of the encoding in that section. */
  function StandardChar(s: seq<bv8>, i: nat): char {
    var k, m := i / 4, i % 4;
    if m >= 2 && 3 * k + m - 1 >= |s| then '='
    else ALPHABET[Sextet(At(s, 3 * k), At(s, 3 * k + 1), At(s, 3 * k + 2), m) as int]
  }

  predicate Standard(s: seq<bv8>, t: seq<bv8>) {
    |t| == (|s| + 2) / 3 * 4 && forall i :: 0 <= i < |t| ==> t[i] as char == StandardChar(s, i)
  }

  lemma UpperCase(q: bv8)
    requires q < 26
    ensures Codec(q) as char == UPPER[q as int]
  {
    assert q == 0 || q == 1 || q == 2 || q == 3 || q == 4 || q == 5 || q == 6 || q == 7 || q == 8
      || q == 9 || q == 10 || q == 11 || q == 12 || q == 13 || q == 14 || q == 15 || q == 16 || q == 17
      || q == 18 || q == 19 || q == 20 || q == 21 || q == 22 || q == 23 || q == 24 || q == 25;
  }

  lemma LowerCase(q: bv8)
    requires 26 <= q < 52
    ensures Codec(q) as char == LOWER[q as int - 26]
  {
    assert q == 26 || q == 27 || q == 28 || q == 29 || q == 30 || q == 31 || q == 32 || q == 33 || q == 34
      || q == 35 || q == 36 || q == 37 || q == 38 || q == 39 || q == 40 || q == 41 || q == 42 || q == 43
      || q == 44 || q == 45 || q == 46 || q == 47 || q == 48 || q == 49 || q == 50 || q == 51;
  }

  lemma OtherChars(q: bv8)
    requires 52 <= q < 64
    ensures Codec(q) as char == OTHERS[q as int - 52]
  {
    assert q == 52 || q == 53 || q == 54 || q == 55 || q == 56 || q == 57 || q == 58 || q == 59 || q == 60
      || q == 61 || q == 62 || q == 63;
  }

  /** The codec table is the alphabet of the standard. */
  lemma CodecIsAlphabet(q: bv8)
    requires q < 64
    ensures Codec(q) as char == ALPHABET[q as int]
  {
    hide Codec;
    if q < 26 {
      UpperCase(q);
    } else if q < 52 {
      LowerCase(q);
    } else {
      OtherChars(q);
    }
  }

  lemma LettersDiffer(p: bv8, q: bv8)
    requires p < 64 && q < 64
    ensures Codec(p) as char == ALPHABET[p as int]
    ensures Codec(p) as char == ALPHABET[q as int] <==> p == q
  {
    CodecIsAlphabet(p);
    CodecIsAlphabet(q);
    if Codec(p) as char == Codec(q) as char {
      SameChar(Codec(p), Codec(q));
      CodecInjective(p, q);
    }
  }

  lemma SameChar(x: bv8, y: bv8)
    requires x as char == y as char
    ensures x == y
  {
  }

  lemma Group0Agrees(a: bv8, b: bv8, c: bv8)
    requires Survivor(a, b, c, 0) == a && Survivor(a, b, c, 1) == b
    ensures Index(Bank(a, b, c), 0) == Sextet(a, b, c, 0)
  {
  }

  lemma Group1Agrees(a: bv8, b: bv8, c: bv8)
    requires Survivor(a, b, c, 0) == a && Survivor(a, b, c, 1) == b
    ensures Index(Bank(a, b, c), 1) == Sextet(a, b, c, 1)
  {
  }

  lemma Group2Agrees(a: bv8, b: bv8, c: bv8)
    requires Survivor(a, b, c, 0) == a && Survivor(a, b, c, 1) == b
    ensures Index(Bank(a, b, c), 2) == Sextet(a, b, c, 2)
  {
  }

  lemma Group3Agrees(a: bv8, b: bv8, c: bv8)
    requires Survivor(a, b, c, 0) == a && Survivor(a, b, c, 1) == b
    ensures Index(Bank(a, b, c), 3) == Sextet(a, b, c, 3)
  {
  }

  /** Sign extension spoils a group exactly when it spoils a byte. */
  lemma GroupsAgree(a: bv8, b: bv8, c: bv8, m: nat)
    requires m < 4 && Survivor(a, b, c, 0) == a && Survivor(a, b, c, 1) == b
    ensures Index(Bank(a, b, c), m) == Sextet(a, b, c, m)
  {
    hide *;
    if m == 0 {
      Group0Agrees(a, b, c);
    } else if m == 1 {
      Group1Agrees(a, b, c);
    } else if m == 2 {
      Group2Agrees(a, b, c);
    } else {
      Group3Agrees(a, b, c);
    }
  }

  lemma GroupsTell(a: bv8, b: bv8, c: bv8, i: nat)
    requires Index(Bank(a, b, c), 0) == Sextet(a, b, c, 0) && Index(Bank(a, b, c), 1) == Sextet(a, b, c, 1)
    requires Index(Bank(a, b, c), 2) == Sextet(a, b, c, 2)
    requires i < 3
    ensures Survivor(a, b, c, i) == if i == 0 then a else if i == 1 then b else c
  {
  }

  lemma PaddedSextet(a: bv8, b: bv8, c: bv8, m: nat)
    requires 2 <= m < 4 && c == 0 && (m == 2 ==> b == 0)
    ensures Sextet(a, b, c, m) == 0
  {
  }

  /** The char at 4 * k + m is the standard's exactly when its group of bits is. */
  lemma CharStandardIff(s: seq<bv8>, k: nat, m: nat)
    requires m < 4 && k < Blocks(|s|)
    ensures Encoded(s)[4 * k + m] as char == StandardChar(s, 4 * k + m) <==>
              Index(BankAt(s, k), m) == Sextet(At(s, 3 * k), At(s, 3 * k + 1), At(s, 3 * k + 2), m)
  {
    hide Codec, Index, Sextet, Bank, ALPHABET, UPPER, LOWER, OTHERS;
    var p, q := Index(BankAt(s, k), m), Sextet(At(s, 3 * k), At(s, 3 * k + 1), At(s, 3 * k + 2), m);
    if m >= 2 && 3 * k + m - 1 >= |s| {
      PaddingIsZero(At(s, 3 * k), At(s, 3 * k + 1), At(s, 3 * k + 2), m);
      PaddedSextet(At(s, 3 * k), At(s, 3 * k + 1), At(s, 3 * k + 2), m);
    } else {
      LettersDiffer(p, q);
    }
  }

  /** The chars of block k are the standard's exactly when no char of the block is spoiled. */
  lemma BlockStandard(s: seq<bv8>, k: nat, m: nat)
    requires Unspoiled(s) && k < Blocks(|s|) && m < 4
    ensures Encoded(s)[4 * k + m] as char == StandardChar(s, 4 * k + m)
  {
    hide Encoded, Index, Sextet, Bank, Survivor, StandardChar;
    SurvivorIsReturned(s, 3 * k);
    SurvivorIsReturned(s, 3 * k + 1);
    GroupsAgree(At(s, 3 * k), At(s, 3 * k + 1), At(s, 3 * k + 2), m);
    CharStandardIff(s, k, m);
  }

  lemma StandardBlock(s: seq<bv8>, i: nat)
    requires Standard(s, Encoded(s)) && i < |s|
    ensures Kept(s, i)
  {
    hide Encoded, Index, Sextet, Bank, Survivor, StandardChar;
    var k := i / 3;
    CharStandardIff(s, k, 0);
    CharStandardIff(s, k, 1);
    CharStandardIff(s, k, 2);
    assert BankAt(s, k) == Bank(At(s, 3 * k), At(s, 3 * k + 1), At(s, 3 * k + 2));
    GroupsTell(At(s, 3 * k), At(s, 3 * k + 1), At(s, 3 * k + 2), i % 3);
    SurvivorIsReturned(s, i);
    assert At(s, 3 * k + i % 3) == s[i];
  }

  /** Encode computes the Base64 of RFC 4648, alphabet, groups of bits and padding, exactly for the
      strings that Decode gives back. */
  lemma StandardIff(s: seq<bv8>)
    ensures Standard(s, Encoded(s)) <==> Unspoiled(s)
  {
    hide Encoded, Kept, StandardChar;
    if Unspoiled(s) {
      forall i | 0 <= i < |Encoded(s)| ensures Encoded(s)[i] as char == StandardChar(s, i) {
        BlockStandard(s, i / 4, i % 4);
        assert 4 * (i / 4) + i % 4 == i;
      }
    }
    if Standard(s, Encoded(s)) {
      forall i | 0 <= i < |s| ensures Kept(s, i) {
        StandardBlock(s, i);
      }
    }
  }

  // ------------------------------------------------------------- the methods

  /** Encode: a fresh C string of outputLength chars. */
  method Encode(input: seq<bv8>) returns (result: array<bv8>)
    requires Text(input) && |input| <= 8191
    ensures fresh(result) && result[..] == Encoded(input) + [0]
  {
    hide Encoded, NeededChars, OutputLength;
    var neededChars := NeededChars(|input|);
    var outputLength := OutputLength(|input|);
    Lengths(|input|);
    result := new bv8[outputLength + 1](_ => 0);
    for i := 0 to outputLength
      invariant result[outputLength] == 0
      invariant forall j :: 0 <= j < i ==> result[j] == Encoded(input)[j]
    {
      result[i] := EncodeChar(input, neededChars, i);
    }
  }

  /** The body of the encoding loop. */
  method EncodeChar(input: seq<bv8>, neededChars: nat, i: nat) returns (enc: bv8)
    requires |input| <= 8191 && neededChars == NeededChars(|input|) && i < 4 * Blocks(|input|)
    ensures enc == Encoded(input)[i]
  {
    hide Codec, Index, BankAt, NeededChars;
    var bank := ReadBank(input, i / 4);
    if i < neededChars {
      enc := Codec(Index(bank, i % 4));
    } else {
      enc := PAD;
    }
    PaddingStarts(|input|, i);
  }

  /** neededChars marks where the padding of the last block begins. */
  lemma PaddingStarts(n: nat, i: nat)
    requires n <= 8191 && i < 4 * Blocks(n)
    ensures i < NeededChars(n) <==> !(i % 4 >= 2 && 3 * (i / 4) + i % 4 - 1 >= n)
  {
    hide NeededChars, OutputLength;
    Lengths(n);
    PaddingInBlock(n / 3, n % 3, i / 4, i % 4);
  }

  /** The same for n == 3 * q + r and i == 4 * k + m. */
  lemma PaddingInBlock(q: nat, r: nat, k: nat, m: nat)
    requires r < 3 && m < 4 && (k < q || (k == q && r > 0))
    ensures 4 * k + m < q * 4 + (if r == 0 then 0 else r + 1) <==> !(m >= 2 && 3 * k + m - 1 >= 3 * q + r)
  {
  }

  lemma WidenZero()
    ensures Widen(0) == 0
  {
  }

  method ReadBank(input: seq<bv8>, k: nat) returns (bank: bv32)
    ensures bank == BankAt(input, k)
  {
    hide Widen, Or;
    WidenZero();
    var start := k * 3;
    bank := 0;
    if start < |input| {
      bank := Widen(input[start]) << 16;
    }
    OrZero(bank);
    if start + 1 < |input| {
      bank := Or(bank, Widen(input[start + 1]) << 8);
    }
    OrZero(bank);
    if start + 2 < |input| {
      bank := Or(bank, Widen(input[start + 2]));
    }
  }

  /** The search through the table for the four chars of one block. */
  method DecodeBlock(a: bv8, b: bv8, c: bv8, d: bv8) returns (bank: bv32)
    ensures bank == Unbank(a, b, c, d)
  {
    hide Hit, Placed, Found, Or;
    bank := 0;
    NothingFound(a);
    NothingFound(b);
    NothingFound(c);
    NothingFound(d);
    var q: bv8 := 0;
    while q < 64
      invariant q <= 64
      invariant bank == Placed(Found(a, q), Found(b, q), Found(c, q), Found(d, q))
      decreases 64 - q
    {
      FoundNext(a, q);
      FoundNext(b, q);
      FoundNext(c, q);
      FoundNext(d, q);
      Gather(Found(a, q), Found(b, q), Found(c, q), Found(d, q), Hit(a, q), Hit(b, q), Hit(c, q), Hit(d, q));
      bank := SearchEntry(bank, q, a, b, c, d);
      q := q + 1;
    }
  }

  /** One turn of the search. */
  method SearchEntry(was: bv32, q: bv8, a: bv8, b: bv8, c: bv8, d: bv8) returns (bank: bv32)
    requires q < 64
    ensures bank == Or(was, Placed(Hit(a, q), Hit(b, q), Hit(c, q), Hit(d, q)))
  {
    hide Codec, Or, Placed;
    bank := SearchChar(was, q, a, q as bv32 << 26, Hit(a, q) << 26);
    bank := SearchChar(bank, q, b, q as bv32 << 20, Hit(b, q) << 20);
    bank := SearchChar(bank, q, c, q as bv32 << 14, Hit(c, q) << 14);
    bank := SearchChar(bank, q, d, q as bv32 << 8, Hit(d, q) << 8);
    InTurn(was, Hit(a, q), Hit(b, q), Hit(c, q), Hit(d, q));
  }

  lemma InTurn(x: bv32, a: bv32, b: bv32, c: bv32, d: bv32)
    ensures Or(Or(Or(Or(x, a << 26), b << 20), c << 14), d << 8) == Or(x, Placed(a, b, c, d))
  {
  }

  method SearchChar(was: bv32, q: bv8, c: bv8, bits: bv32, ghost hit: bv32) returns (bank: bv32)
    requires q < 64 && hit == if Codec(q) == c then bits else 0
    ensures bank == Or(was, hit)
  {
    hide Codec, Or;
    OrZero(was);
    if Codec(q) == c {
      bank := Or(was, bits);
    } else {
      bank := was;
    }
  }

  lemma OrZero(x: bv32)
    ensures Or(x, 0) == x
  {
  }

  lemma NothingFound(c: bv8)
    ensures Found(c, 0) == 0 && Placed(0, 0, 0, 0) == 0
  {
  }

  lemma FoundNext(c: bv8, q: bv8)
    requires q < 64
    ensures Found(c, q + 1) == Or(Found(c, q), Hit(c, q))
  {
    hide Hit;
  }

  lemma OrIs(x: bv32, y: bv32)
    ensures Or(x, y) == x | y
  {
  }

  lemma Bits26(x: bv32, y: bv32)
    ensures (x | y) << 26 == (x << 26) | (y << 26)
  {
  }

  lemma Shift26(x: bv32, y: bv32)
    ensures Or(x, y) << 26 == Or(x << 26, y << 26)
  {
    hide Or;
    OrIs(x, y);
    OrIs(x << 26, y << 26);
    Bits26(x, y);
  }

  lemma Bits20(x: bv32, y: bv32)
    ensures (x | y) << 20 == (x << 20) | (y << 20)
  {
  }

  lemma Shift20(x: bv32, y: bv32)
    ensures Or(x, y) << 20 == Or(x << 20, y << 20)
  {
    hide Or;
    OrIs(x, y);
    OrIs(x << 20, y << 20);
    Bits20(x, y);
  }

  lemma Bits14(x: bv32, y: bv32)
    ensures (x | y) << 14 == (x << 14) | (y << 14)
  {
  }

  lemma Shift14(x: bv32, y: bv32)
    ensures Or(x, y) << 14 == Or(x << 14, y << 14)
  {
    hide Or;
    OrIs(x, y);
    OrIs(x << 14, y << 14);
    Bits14(x, y);
  }

  lemma Bits8(x: bv32, y: bv32)
    ensures (x | y) << 8 == (x << 8) | (y << 8)
  {
  }

  lemma Shift8(x: bv32, y: bv32)
    ensures Or(x, y) << 8 == Or(x << 8, y << 8)
  {
    hide Or;
    OrIs(x, y);
    OrIs(x << 8, y << 8);
    Bits8(x, y);
  }

  lemma OrSwaps(x: bv32, y: bv32)
    ensures Or(x, y) == Or(y, x)
  {
  }

  lemma OrJoins(x: bv32, y: bv32, z: bv32)
    ensures Or(Or(x, y), z) == Or(x, Or(y, z))
  {
  }

  lemma Crossed(a: bv32, b: bv32, p: bv32, q: bv32)
    ensures Or(Or(a, p), Or(b, q)) == Or(Or(a, b), Or(p, q))
  {
    hide Or;
    OrJoins(a, p, Or(b, q));
    OrJoins(p, b, q);
    OrSwaps(p, b);
    OrJoins(b, p, q);
    OrJoins(a, b, Or(p, q));
  }

  /** Chars found so far and chars found next can be placed separately. */
  lemma Gather(a: bv32, b: bv32, c: bv32, d: bv32, p: bv32, q: bv32, r: bv32, s: bv32)
    ensures Placed(Or(a, p), Or(b, q), Or(c, r), Or(d, s)) == Or(Placed(a, b, c, d), Placed(p, q, r, s))
  {
    hide Or;
    Shift26(a, p);
    Shift20(b, q);
    Shift14(c, r);
    Shift8(d, s);
    Crossed(a << 26, b << 20, p << 26, q << 20);
    Crossed(Or(a << 26, b << 20), c << 14, Or(p << 26, q << 20), r << 14);
    Crossed(Or(Or(a << 26, b << 20), c << 14), d << 8, Or(Or(p << 26, q << 20), r << 14), s << 8);
  }

  /** Decode, in place when `buffer` is `input`.  A decoded block is never longer than the
      encoded one, so the unread part of the input is not overwritten. */
  method Decode(input: array<bv8>, len: nat, buffer: array<bv8>) returns (ok: bool)
    requires len < input.Length && len <= 10920 && len * 6 / 8 < buffer.Length
    modifies buffer
    ensures ok == (len % 4 == 0)
    ensures ok ==> buffer[..len / 4 * 3] == Decoded(old(input[..len])) && buffer[len / 4 * 3] == 0
    ensures !ok ==> buffer[..] == old(buffer[..])
    ensures buffer != input ==> input[..] == old(input[..])
  {
    hide Byte, UnbankAt, Decoded;
    if len % 4 != 0 {
      return false;
    }
    ghost var text := input[..len];
    var outlen := len * 6 % 0x1_0000 / 8;
    ghost var blocks := len / 4;
    assert len == 4 * blocks && outlen == 3 * blocks;
    var i, b := 0, 0;
    ghost var k := 0;
    while i < len
      invariant i == 4 * k && b == 3 * k && k <= blocks
      invariant forall j :: i <= j < len ==> input[j] == text[j]
      invariant buffer != input ==> input[..] == old(input[..])
      invariant forall j :: 0 <= j < b ==> buffer[j] == Decoded(text)[j]
    {
      var bank := ReadBlock(input, text, i, k);
      BytesOf(text, k);
      StoreBlock(buffer, b, bank);
      i, b, k := i + 4, b + 3, k + 1;
    }
    buffer[outlen] := 0;
    ok := true;
  }

  method StoreBlock(buffer: array<bv8>, b: nat, bank: bv32)
    requires b + 2 < buffer.Length
    modifies buffer
    ensures forall j :: 0 <= j < buffer.Length ==>
      buffer[j] == if b <= j < b + 3 then Byte(bank, j - b) else old(buffer[j])
  {
    hide Byte;
    buffer[b] := Byte(bank, 0);
    buffer[b + 1] := Byte(bank, 1);
    buffer[b + 2] := Byte(bank, 2);
  }

  lemma BytesOf(t: seq<bv8>, k: nat)
    requires |t| % 4 == 0 && 4 * k + 3 < |t|
    ensures forall j :: 3 * k <= j < 3 * k + 3 ==> Decoded(t)[j] == Byte(UnbankAt(t, k), j - 3 * k)
  {
    hide Byte, UnbankAt;
  }

  method ReadBlock(input: array<bv8>, ghost text: seq<bv8>, i: nat, ghost k: nat) returns (bank: bv32)
    requires i == 4 * k && i + 3 < |text| <= input.Length
    requires forall j :: i <= j < |text| ==> input[j] == text[j]
    ensures bank == UnbankAt(text, k)
  {
    hide Unbank;
    bank := DecodeBlock(input[i], input[i + 1], input[i + 2], input[i + 3]);
  }
}
