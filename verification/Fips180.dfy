/**
 SHA-256 as FIPS 180-4 defines it: functions on values only, written from the standard's text and
 not from the shape of src/hash/sha256.cpp.  Sha256.dfy proves the buffered context against it.
 */
module Fips180 {
  import opened Numerals
  import opened Shared

  type Words = seq<bv32>

  /** A 512-bit message block, section 5.2.1. */
  type Block = b: Bytes | |b| == 64 witness seq(64, i => 0)

  /** A hash value H_0 .. H_7, section 6.2. */
  type HashValue = h: Words | |h| == 8 witness seq(8, i => 0)

  /** Addition modulo 2^32, section 3.2; the same as C++'s addition of unsigned 32-bit words. */
  function Plus(x: bv32, y: bv32): bv32 { x + y }

  // Section 4.1.2

  function Rotr(x: bv32, n: nat): bv32
    requires 0 < n < 32
  {
    (x >> n) | (x << (32 - n))
  }

  function Ch(x: bv32, y: bv32, z: bv32): bv32 { (x & y) ^ (!x & z) }

  function Maj(x: bv32, y: bv32, z: bv32): bv32 { (x & y) ^ (x & z) ^ (y & z) }

  function BigSigma0(x: bv32): bv32 { Rotr(x, 2) ^ Rotr(x, 13) ^ Rotr(x, 22) }

  function BigSigma1(x: bv32): bv32 { Rotr(x, 6) ^ Rotr(x, 11) ^ Rotr(x, 25) }

  function SmallSigma0(x: bv32): bv32 { Rotr(x, 7) ^ Rotr(x, 18) ^ (x >> 3) }

  function SmallSigma1(x: bv32): bv32 { Rotr(x, 17) ^ Rotr(x, 19) ^ (x >> 10) }

  // Sections 4.2.2 and 5.3.3

  // The tables are laid out in rows of eight.
  const ROUND_CONSTANTS: seq<seq<int>> := [
    [0x428a2f98, 0x71374491, 0xb5c0fbcf, 0xe9b5dba5, 0x3956c25b, 0x59f111f1, 0x923f82a4, 0xab1c5ed5],
    [0xd807aa98, 0x12835b01, 0x243185be, 0x550c7dc3, 0x72be5d74, 0x80deb1fe, 0x9bdc06a7, 0xc19bf174],
    [0xe49b69c1, 0xefbe4786, 0x0fc19dc6, 0x240ca1cc, 0x2de92c6f, 0x4a7484aa, 0x5cb0a9dc, 0x76f988da],
    [0x983e5152, 0xa831c66d, 0xb00327c8, 0xbf597fc7, 0xc6e00bf3, 0xd5a79147, 0x06ca6351, 0x14292967],
    [0x27b70a85, 0x2e1b2138, 0x4d2c6dfc, 0x53380d13, 0x650a7354, 0x766a0abb, 0x81c2c92e, 0x92722c85],
    [0xa2bfe8a1, 0xa81a664b, 0xc24b8b70, 0xc76c51a3, 0xd192e819, 0xd6990624, 0xf40e3585, 0x106aa070],
    [0x19a4c116, 0x1e376c08, 0x2748774c, 0x34b0bcb5, 0x391c0cb3, 0x4ed8aa4a, 0x5b9cca4f, 0x682e6ff3],
    [0x748f82ee, 0x78a5636f, 0x84c87814, 0x8cc70208, 0x90befffa, 0xa4506ceb, 0xbef9a3f7, 0xc67178f2]
  ]

  const INITIAL_WORDS: seq<int> := [
    0x6a09e667, 0xbb67ae85, 0x3c6ef372, 0xa54ff53a, 0x510e527f, 0x9b05688c, 0x1f83d9ab, 0x5be0cd19
  ]

  /** The first sixty-four primes. */
  const PRIMES: seq<seq<int>> := [
    [2, 3, 5, 7, 11, 13, 17, 19],
    [23, 29, 31, 37, 41, 43, 47, 53],
    [59, 61, 67, 71, 73, 79, 83, 89],
    [97, 101, 103, 107, 109, 113, 127, 131],
    [137, 139, 149, 151, 157, 163, 167, 173],
    [179, 181, 191, 193, 197, 199, 211, 223],
    [227, 229, 233, 239, 241, 251, 257, 263],
    [269, 271, 277, 281, 283, 293, 307, 311]
  ]

  function Square(x: int): int { x * x }

  function Cube(x: int): int { x * x * x }

  function CubeRootFloor(p: int): nat {
    if p < 8 then 1 else if p < 27 then 2 else if p < 64 then 3 else if p < 125 then 4 else if p < 216 then 5 else 6
  }

  function SquareRootFloor(p: int): nat {
    if p < 4 then 1 else if p < 9 then 2 else if p < 16 then 3 else 4
  }

  /** K_t is the first thirty-two bits of the fractional part of the cube root of the t-th prime. */
  lemma RoundConstantsAreCubeRootFractions(i: nat, j: nat)
    requires i < 8 && j < 8
    ensures 0 <= ROUND_CONSTANTS[i][j] < TWO_TO_THE_32
    ensures var n := CubeRootFloor(PRIMES[i][j]) * TWO_TO_THE_32 + ROUND_CONSTANTS[i][j];
            Cube(n) <= PRIMES[i][j] * Cube(TWO_TO_THE_32) < Cube(n + 1)
  {
  }

  /** H_i is the first thirty-two bits of the fractional part of the square root of the i-th prime. */
  lemma InitialWordsAreSquareRootFractions(i: nat)
    requires i < 8
    ensures 0 <= INITIAL_WORDS[i] < TWO_TO_THE_32
    ensures var n := SquareRootFloor(PRIMES[0][i]) * TWO_TO_THE_32 + INITIAL_WORDS[i];
            Square(n) <= PRIMES[0][i] * Square(TWO_TO_THE_32) < Square(n + 1)
  {
  }

  function RoundConstant(t: nat): bv32
    requires t < 64
  {
    RoundConstantsAreCubeRootFractions(t / 8, t % 8);
    ROUND_CONSTANTS[t / 8][t % 8] as bv32
  }

  function InitialHash(): HashValue {
    seq(8, i requires 0 <= i < 8 => InitialWordsAreSquareRootFractions(i); INITIAL_WORDS[i] as bv32)
  }

  // Section 5: padding and parsing

  function LowByte(v: nat): bv8 { (v % 256) as bv8 }

  /** Most significant byte first. */
  function BigEndian(v: nat, width: nat): (b: Bytes)
    ensures |b| == width
    decreases width
  {
    if width == 0 then [] else BigEndian(v / 256, width - 1) + [LowByte(v)]
  }

  function BigEndianValue(b: Bytes): nat {
    if b == [] then 0 else 256 * BigEndianValue(b[..|b| - 1]) + b[|b| - 1] as int
  }

  function Pow256(n: nat): nat { if n == 0 then 1 else 256 * Pow256(n - 1) }

  lemma BigEndianValueAppend(b: Bytes, x: bv8)
    ensures BigEndianValue(b + [x]) == 256 * BigEndianValue(b) + x as int
  {
    assert (b + [x])[..|b|] == b;
  }

  lemma {:induction false} BigEndianRoundTrip(v: nat, width: nat)
    requires v < Pow256(width)
    ensures BigEndianValue(BigEndian(v, width)) == v
  {
    if width > 0 {
      var high, low := v / 256, v % 256;
      BigEndianRoundTrip(high, width - 1);
      BigEndianStep(BigEndian(high, width - 1), high, low);
    }
  }

  lemma BigEndianStep(b: Bytes, high: nat, low: nat)
    requires BigEndianValue(b) == high && low < 256
    ensures BigEndianValue(b + [low as bv8]) == 256 * high + low
  {
    var x := low as bv8;
    assert x as int == low by { ByteRoundTrip(low); }
    BigEndianValueAppend(b, x);
  }

  lemma ByteOfByte(x: bv8)
    ensures (x as nat) as bv8 == x
  {
  }

  lemma NextByte(x: bv8)
    requires x < 255
    ensures (x + 1) as nat == x as nat + 1
  {
  }

  lemma {:induction false} ByteRoundTrip(n: nat)
    requires n < 256
    ensures (n as bv8) as int == n
  {
    if n > 0 {
      ByteRoundTrip(n - 1);
      var x := (n - 1) as bv8;
      assert x < 255 by { ByteOfByte(255); }
      NextByte(x);
      ByteOfByte(x + 1);
    }
  }

  function Zeros(n: nat): (z: Bytes)
    ensures |z| == n
  {
    seq(n, i => 0)
  }

  /** The number of zero bytes between the 0x80 byte and the length field, section 5.1.1. */
  function ZeroBytes(n: nat): nat { (55 - n) % 64 }

  predicate ReachesLengthField(n: nat, zeros: nat) { (n + 1 + zeros) % 64 == 56 }

  /** It is the least number that brings the length up to 56 modulo 64 (448 modulo 512 in bits). */
  lemma ZeroBytesIsLeast(n: nat)
    ensures ReachesLengthField(n, ZeroBytes(n))
    ensures forall k: nat :: ReachesLengthField(n, k) ==> ZeroBytes(n) <= k
  {
  }

  /** The padded message whose length field holds lengthField. */
  function PadWith(m: Bytes, lengthField: nat): (p: Bytes)
    ensures |p| % 64 == 0
  {
    m + [0x80] + Zeros(ZeroBytes(|m|)) + BigEndian(lengthField, 8)
  }

  /** Section 5.1.1: the length field is the length of the message in bits, for fewer than 2^64 bits. */
  function Pad(m: Bytes): (p: Bytes)
    requires |m| < 0x2000_0000_0000_0000
    ensures |p| % 64 == 0
  {
    PadWith(m, 8 * |m|)
  }

  /** Section 5.2.1. */
  function Parse(m: Bytes): seq<Block>
    requires |m| % 64 == 0
  {
    if m == [] then [] else [m[..64]] + Parse(m[64..])
  }

  function Flatten(blocks: seq<Block>): Bytes {
    if blocks == [] then [] else blocks[0] + Flatten(blocks[1..])
  }

  lemma {:induction false} ParseFlatten(blocks: seq<Block>)
    ensures |Flatten(blocks)| == 64 * |blocks|
    ensures Parse(Flatten(blocks)) == blocks
  {
    if blocks != [] {
      ParseFlatten(blocks[1..]);
      var f := Flatten(blocks);
      assert f[..64] == blocks[0] && f[64..] == Flatten(blocks[1..]);
    }
  }

  lemma {:induction false} FlattenAppend(blocks: seq<Block>, b: Block)
    ensures Flatten(blocks + [b]) == Flatten(blocks) + b
  {
    if blocks == [] {
      assert Flatten([b]) == b + Flatten([b][1..]) == b;
    } else {
      FlattenAppend(blocks[1..], b);
      assert (blocks + [b])[1..] == blocks[1..] + [b];
    }
  }

  // Section 6.2.2

  /** Word t of a block, most significant byte first. */
  function WordAt(b: Block, t: nat): bv32
    requires t < 16
  {
    (b[4 * t] as bv32 << 24) | (b[4 * t + 1] as bv32 << 16) | (b[4 * t + 2] as bv32 << 8) | b[4 * t + 3] as bv32
  }

  function WordBytes(w: bv32): (b: Bytes)
    ensures |b| == 4
  {
    [(w >> 24) as bv8, ((w >> 16) & 0xff) as bv8, ((w >> 8) & 0xff) as bv8, (w & 0xff) as bv8]
  }

  lemma WordBytesInverse(b: Block, t: nat)
    requires t < 16
    ensures WordBytes(WordAt(b, t)) == b[4 * t..4 * t + 4]
    ensures forall w :: b[4 * t..4 * t + 4] == WordBytes(w) ==> WordAt(b, t) == w
  {
    forall w | b[4 * t..4 * t + 4] == WordBytes(w) ensures WordAt(b, t) == w {
      var four := b[4 * t..4 * t + 4];
      assert b[4 * t] == four[0] && b[4 * t + 1] == four[1] && b[4 * t + 2] == four[2] && b[4 * t + 3] == four[3];
      JoinedBytes(w);
    }
  }

  lemma JoinedBytes(w: bv32)
    ensures ((w >> 24) as bv8 as bv32 << 24) | (((w >> 16) & 0xff) as bv8 as bv32 << 16)
            | (((w >> 8) & 0xff) as bv8 as bv32 << 8) | (w & 0xff) as bv8 as bv32 == w
  {
  }

  /** The message schedule, step 1. */
  function W(b: Block, t: nat): bv32
    requires t < 64
  {
    if t < 16 then WordAt(b, t)
    else Plus(Plus(Plus(SmallSigma1(W(b, t - 2)), W(b, t - 7)), SmallSigma0(W(b, t - 15))), W(b, t - 16))
  }

  /** The eight working variables, step 2. */
  datatype Working = Working(a: bv32, b: bv32, c: bv32, d: bv32, e: bv32, f: bv32, g: bv32, h: bv32)

  function Start(hv: HashValue): Working {
    Working(hv[0], hv[1], hv[2], hv[3], hv[4], hv[5], hv[6], hv[7])
  }

  /** One pass of step 3. */
  function Round(v: Working, k: bv32, w: bv32): Working {
    var t1 := Plus(Plus(Plus(Plus(v.h, BigSigma1(v.e)), Ch(v.e, v.f, v.g)), k), w);
    var t2 := Plus(BigSigma0(v.a), Maj(v.a, v.b, v.c));
    Working(Plus(t1, t2), v.a, v.b, v.c, Plus(v.d, t1), v.e, v.f, v.g)
  }

  /** The working variables after the first t passes of step 3. */
  function Rounds(hv: HashValue, b: Block, t: nat): Working
    requires t <= 64
  {
    if t == 0 then Start(hv) else Round(Rounds(hv, b, t - 1), RoundConstant(t - 1), W(b, t - 1))
  }

  /** Step 4. */
  function Compress(hv: HashValue, b: Block): HashValue {
    var v := Rounds(hv, b, 64);
    [Plus(v.a, hv[0]), Plus(v.b, hv[1]), Plus(v.c, hv[2]), Plus(v.d, hv[3]),
     Plus(v.e, hv[4]), Plus(v.f, hv[5]), Plus(v.g, hv[6]), Plus(v.h, hv[7])]
  }

  /** The hash value after the given blocks. */
  function HashBlocks(blocks: seq<Block>): HashValue {
    if blocks == [] then InitialHash()
    else Compress(HashBlocks(blocks[..|blocks| - 1]), blocks[|blocks| - 1])
  }

  /** The words one after the other, each most significant byte first. */
  function WordsBytes(ws: Words): (b: Bytes)
    ensures |b| == 4 * |ws|
  {
    if ws == [] then [] else WordsBytes(ws[..|ws| - 1]) + WordBytes(ws[|ws| - 1])
  }

  /** SHA-256 of a message of fewer than 2^64 bits. */
  function Sha256(m: Bytes): (d: Bytes)
    requires |m| < 0x2000_0000_0000_0000
    ensures |d| == 32
  {
    WordsBytes(HashBlocks(Parse(Pad(m))))
  }
}
