/**
 The buffered context of src/hash/sha256.cpp and the two public functions above it, proved against
 Fips180.  A const input pointer with a size is a sequence of bytes; the 64-bit bit counter wraps
 as an unsigned 64-bit integer does.
 */
module Sha256Context {
  import opened Fips180
  import opened Numerals
  import opened Shared

  class Context {
    var state: array<bv32>
    var buffer: array<bv8>
    var bufferLen: nat
    var bitLen: nat
    /** The blocks handed to ProcessBlock so far. */
    ghost var blocks: seq<Block>
    ghost const Repr: set<object>

    /** What holds after every operation, padding included. */
    ghost predicate Shape()
      reads this, Repr
    {
      && this in Repr && state in Repr && buffer in Repr
      && state.Length == 8 && buffer.Length == 64
      && bufferLen <= 64
      && state[..] == HashBlocks(blocks)
    }

    /** The input received so far, or after Finalize the padded input. */
    ghost function Input(): Bytes
      requires Shape()
      reads this, Repr
    {
      Flatten(blocks) + buffer[..bufferLen]
    }

    /** What holds between calls of Update: m is the input so far. */
    ghost predicate Absorbed(m: Bytes)
      reads this, Repr
    {
      Shape() && bufferLen < 64 && Input() == m && bitLen == 8 * |m| % TWO_TO_THE_64
    }

    constructor ()
      ensures Absorbed([]) && fresh(Repr)
    {
      state := new bv32[8](i requires 0 <= i < 8 => InitialHash()[i]);
      buffer := new bv8[64](_ => 0);
      bufferLen, bitLen := 0, 0;
      blocks := [];
      Repr := {this, state, buffer};
      new;
      assert state[..] == InitialHash();
    }

    /** Appends data to the input; the blocks completed on the way are processed in order. */
    method Update(data: Bytes, ghost m: Bytes)
      requires Absorbed(m)
      modifies Repr
      ensures Absorbed(m + data)
    {
      hide HashBlocks, Flatten;
      if |data| == 0 {
        assert m + data == m;
        return;
      }
      bitLen := (bitLen + |data| * 8 % TWO_TO_THE_64) % TWO_TO_THE_64;
      ghost var bits := 8 * |m + data| % TWO_TO_THE_64;
      assert bitLen == bits by { BitsAdd(|m|, |data|); }

      var pos := 0;
      if bufferLen > 0 {
        pos := TopUp(data, m);
      } else {
        assert m + data[..0] == m;
      }
      while |data| - pos >= 64
        invariant 0 <= pos <= |data|
        invariant Shape() && bitLen == bits
        invariant bufferLen > 0 ==> pos == |data| && bufferLen < 64
        invariant Input() == m + data[..pos]
      {
        ProcessDirectly(data[pos..pos + 64]);
        assert m + data[..pos] + data[pos..pos + 64] == m + data[..pos + 64];
        pos := pos + 64;
      }
      assert m + data == m + data[..pos] + data[pos..];
      if |data| - pos > 0 {
        Fill(data[pos..]);
      } else {
        assert data[..pos] == data;
      }
    }

    /** Fills a partial block from the front of data and processes it when it is full. */
    method TopUp(data: Bytes, ghost m: Bytes) returns (take: nat)
      requires Shape() && 0 < bufferLen < 64 && Input() == m
      modifies state, buffer, `bufferLen, `blocks
      ensures Shape() && take <= |data| && Input() == m + data[..take]
      ensures bufferLen == 0 || (take == |data| && bufferLen < 64)
    {
      hide HashBlocks;
      var need := 64 - bufferLen;
      take := if |data| < need then |data| else need;
      Fill(data[..take]);
      if bufferLen == 64 {
        FlattenAppend(blocks, buffer[..]);
        ProcessBlock(buffer[..]);
        bufferLen := 0;
      }
    }

    /** Processes a whole block of input while the buffer is empty. */
    method ProcessDirectly(block: Block)
      requires Shape() && bufferLen == 0
      modifies state, `blocks
      ensures Shape() && Input() == old(Input()) + block
    {
      hide HashBlocks;
      FlattenAppend(blocks, block);
      ProcessBlock(block);
    }

    /** Copies data behind the bytes already in the buffer. */
    method Fill(data: Bytes)
      requires Shape() && bufferLen + |data| <= 64
      modifies buffer, `bufferLen
      ensures Shape() && bufferLen == old(bufferLen) + |data|
      ensures Input() == old(Input()) + data
    {
      hide HashBlocks;
      forall i | 0 <= i < |data| {
        buffer[bufferLen + i] := data[i];
      }
      bufferLen := bufferLen + |data|;
      assert buffer[..bufferLen] == old(buffer[..bufferLen]) + data;
    }

    /** Appends zero bytes until the buffer holds upTo bytes. */
    method FillZeros(upTo: nat)
      requires Shape() && bufferLen <= upTo <= 64
      modifies buffer, `bufferLen
      ensures Shape() && bufferLen == upTo
      ensures Input() == old(Input()) + Zeros(upTo - old(bufferLen))
    {
      hide HashBlocks;
      while bufferLen < upTo
        invariant Shape() && old(bufferLen) <= bufferLen <= upTo
        invariant Input() == old(Input()) + Zeros(bufferLen - old(bufferLen))
      {
        Fill([0]);
        assert Zeros(bufferLen - 1 - old(bufferLen)) + [0] == Zeros(bufferLen - old(bufferLen));
      }
    }

    /** Pads, processes the last one or two blocks and returns the hash value as bytes. */
    method Finalize(ghost m: Bytes) returns (digest: Bytes)
      requires Absorbed(m)
      modifies Repr
      ensures Flatten(blocks) == PadWith(m, 8 * |m| % TWO_TO_THE_64)
      ensures digest == WordsBytes(HashBlocks(Parse(PadWith(m, 8 * |m| % TWO_TO_THE_64))))
    {
      hide HashBlocks, BigEndian, Flatten, Parse, Compress;
      FillPadding(m);
      FillLength(bitLen);
      FlushBuffer();
      ParseFlatten(blocks);
      digest := Digest();
    }

    /** Appends 0x80 and zero bytes up to the length field, with one block flushed on the way if need be. */
    method FillPadding(ghost m: Bytes)
      requires Absorbed(m)
      modifies state, buffer, `bufferLen, `blocks
      ensures Shape() && bufferLen == 56 && Input() == m + [0x80] + Zeros(ZeroBytes(|m|))
    {
      hide HashBlocks, Flatten;
      FlattenLength(blocks);
      Fill([0x80]);
      ghost var first := 0;
      if bufferLen > 56 {
        first := 64 - bufferLen;
        FillZeros(64);
        FlushBuffer();
      }
      assert Input() == m + [0x80] + Zeros(first);
      ghost var second := 56 - bufferLen;
      FillZeros(56);
      assert first + second == ZeroBytes(|m|) by { ZeroBytesFrom(|m|, old(bufferLen)); }
      ZerosAppend(m + [0x80], first, second);
    }

    /** Processes the full buffer. */
    method FlushBuffer()
      requires Shape() && bufferLen == 64
      modifies state, `bufferLen, `blocks
      ensures Shape() && bufferLen == 0 && Input() == old(Input())
    {
      hide HashBlocks;
      FlattenAppend(blocks, buffer[..]);
      ProcessBlock(buffer[..]);
      bufferLen := 0;
    }

    /** The last eight bytes of the final block. */
    method FillLength(bits: nat)
      requires Shape() && bufferLen == 56 && bits < TWO_TO_THE_64
      modifies buffer, `bufferLen
      ensures Shape() && bufferLen == 64
      ensures Input() == old(Input()) + BigEndian(bits, 8)
    {
      hide HashBlocks, BigEndian;
      StoreBe64(buffer, 56, bits);
      bufferLen := 64;
      assert buffer[..64] == old(buffer[..56]) + BigEndian(bits, 8);
    }

    /** The state words as bytes. */
    method Digest() returns (digest: Bytes)
      requires Shape()
      ensures digest == WordsBytes(HashBlocks(blocks))
    {
      hide HashBlocks, WordBytes;
      var out := new bv8[32];
      for i := 0 to 8
        invariant out[..4 * i] == WordsBytes(state[..i])
      {
        StoreBe32(out, 4 * i, state[i]);
        assert state[..i + 1][..i] == state[..i];
        assert out[..4 * (i + 1)] == out[..4 * i] + WordBytes(state[i]);
      }
      assert state[..8] == state[..];
      digest := out[..];
    }

    /** One block: the section 6.2.2 computation in place. */
    method ProcessBlock(block: Block)
      requires Shape()
      modifies state, `blocks
      ensures Shape()
      ensures blocks == old(blocks) + [block]
      ensures state[..] == Compress(old(state[..]), block)
    {
      hide Plus, HashBlocks, Rounds, W, Compress;
      ghost var hv: HashValue := state[..];
      var w := Schedule(block);
      var v := CompressionLoop(hv, block, w, state);
      AddInto(state, v);
      assert state[..] == Compress(hv, block) by { CompressIs(hv, block); }
      blocks := blocks + [block];
      HashBlocksAppend(old(blocks), block);
    }
  }

  lemma ZerosAppend(m: Bytes, first: nat, second: nat)
    ensures m + Zeros(first) + Zeros(second) == m + Zeros(first + second)
  {
  }

  lemma ZeroBytesFrom(n: nat, used: nat)
    requires used == n % 64
    ensures ZeroBytes(n) == if used + 1 > 56 then 64 - (used + 1) + 56 else 56 - (used + 1)
  {
  }

  lemma BitsAdd(n: nat, k: nat)
    ensures (8 * n % TWO_TO_THE_64 + k * 8 % TWO_TO_THE_64) % TWO_TO_THE_64 == 8 * (n + k) % TWO_TO_THE_64
  {
    var x, y := 8 * n, k * 8;
    var low := x % TWO_TO_THE_64 + y % TWO_TO_THE_64;
    var q := x / TWO_TO_THE_64 + y / TWO_TO_THE_64;
    var carry := if low < TWO_TO_THE_64 then 0 else 1;
    assert x + y == TWO_TO_THE_64 * q + low;
    Remainder(low, carry, low - TWO_TO_THE_64 * carry);
    Remainder(x + y, q + carry, low - TWO_TO_THE_64 * carry);
  }

  lemma Remainder(n: nat, q: nat, r: nat)
    requires n == TWO_TO_THE_64 * q + r && r < TWO_TO_THE_64
    ensures n % TWO_TO_THE_64 == r
  {
  }

  /** The word-wise addition of the working variables to the state. */
  method AddInto(state: array<bv32>, v: Working)
    requires state.Length == 8
    modifies state
    ensures state[0] == Plus(v.a, old(state[0])) && state[1] == Plus(v.b, old(state[1]))
    ensures state[2] == Plus(v.c, old(state[2])) && state[3] == Plus(v.d, old(state[3]))
    ensures state[4] == Plus(v.e, old(state[4])) && state[5] == Plus(v.f, old(state[5]))
    ensures state[6] == Plus(v.g, old(state[6])) && state[7] == Plus(v.h, old(state[7]))
  {
    hide Plus;
    state[0] := Plus(v.a, state[0]);
    state[1] := Plus(v.b, state[1]);
    state[2] := Plus(v.c, state[2]);
    state[3] := Plus(v.d, state[3]);
    state[4] := Plus(v.e, state[4]);
    state[5] := Plus(v.f, state[5]);
    state[6] := Plus(v.g, state[6]);
    state[7] := Plus(v.h, state[7]);
  }

  /** The message schedule of a block: first the sixteen words of the block, then the recurrence. */
  method Schedule(block: Block) returns (w: array<bv32>)
    ensures fresh(w) && w.Length == 64
    ensures forall t | 0 <= t < 64 :: w[t] == W(block, t)
  {
    hide Plus, WordAt, SmallSigma0, SmallSigma1, W;
    w := new bv32[64];
    for t := 0 to 16
      invariant forall j | 0 <= j < t :: w[j] == W(block, j)
    {
      w[t] := WordAt(block, t);
      ScheduleStep(block, t);
    }
    for t := 16 to 64
      invariant forall j | 0 <= j < t :: w[j] == W(block, j)
    {
      w[t] := Plus(Plus(Plus(SmallSigma1(w[t - 2]), w[t - 7]), SmallSigma0(w[t - 15])), w[t - 16]);
      ScheduleStep(block, t);
    }
  }

  lemma ScheduleStep(b: Block, t: nat)
    requires t < 64
    ensures t < 16 ==> W(b, t) == WordAt(b, t)
    ensures t >= 16 ==>
      W(b, t) == Plus(Plus(Plus(SmallSigma1(W(b, t - 2)), W(b, t - 7)), SmallSigma0(W(b, t - 15))), W(b, t - 16))
  {
    hide Plus, WordAt, SmallSigma0, SmallSigma1;
  }

  /** The sixty-four passes over the rotating working variables, started from the state words. */
  method CompressionLoop(ghost hv: HashValue, ghost block: Block, w: array<bv32>, state: array<bv32>)
      returns (v: Working)
    requires w.Length == 64 && forall t | 0 <= t < 64 :: w[t] == W(block, t)
    requires state.Length == 8 && state[..] == hv
    ensures v == Rounds(hv, block, 64)
  {
    hide Plus, Rounds, W, BigSigma0, BigSigma1, Ch, Maj, RoundConstant;
    var a, b, c, d := state[0], state[1], state[2], state[3];
    var e, f, g, h := state[4], state[5], state[6], state[7];
    RoundsAtZero(hv, block);
    for t := 0 to 64
      invariant Working(a, b, c, d, e, f, g, h) == Rounds(hv, block, t)
    {
      RoundsStep(hv, block, t);
      var t1 := Plus(Plus(Plus(Plus(h, BigSigma1(e)), Ch(e, f, g)), RoundConstant(t)), w[t]);
      var t2 := Plus(BigSigma0(a), Maj(a, b, c));
      h := g;
      g := f;
      f := e;
      e := Plus(d, t1);
      d := c;
      c := b;
      b := a;
      a := Plus(t1, t2);
    }
    v := Working(a, b, c, d, e, f, g, h);
  }

  lemma RoundsAtZero(hv: HashValue, b: Block)
    ensures Rounds(hv, b, 0) == Start(hv)
  {
  }

  lemma RoundsStep(hv: HashValue, b: Block, t: nat)
    requires t < 64
    ensures Rounds(hv, b, t + 1) == Round(Rounds(hv, b, t), RoundConstant(t), W(b, t))
  {
    hide Round, RoundConstant, W;
  }

  lemma CompressIs(hv: HashValue, b: Block)
    ensures var v := Rounds(hv, b, 64);
            Compress(hv, b) ==
            [Plus(v.a, hv[0]), Plus(v.b, hv[1]), Plus(v.c, hv[2]), Plus(v.d, hv[3]),
             Plus(v.e, hv[4]), Plus(v.f, hv[5]), Plus(v.g, hv[6]), Plus(v.h, hv[7])]
  {
    hide Plus, Rounds;
  }

  lemma HashBlocksAppend(blocks: seq<Block>, b: Block)
    ensures HashBlocks(blocks + [b]) == Compress(HashBlocks(blocks), b)
  {
    hide Compress;
    assert (blocks + [b])[..|blocks|] == blocks;
  }

  lemma FlattenLength(blocks: seq<Block>)
    ensures |Flatten(blocks)| == 64 * |blocks|
  {
    ParseFlatten(blocks);
  }

  method StoreBe32(p: array<bv8>, at: nat, v: bv32)
    requires at + 4 <= p.Length
    modifies p
    ensures p[at..at + 4] == WordBytes(v)
    ensures p[..at] == old(p[..at]) && p[at + 4..] == old(p[at + 4..])
  {
    p[at] := (v >> 24) as bv8;
    p[at + 1] := ((v >> 16) & 0xff) as bv8;
    p[at + 2] := ((v >> 8) & 0xff) as bv8;
    p[at + 3] := (v & 0xff) as bv8;
  }

  /** A shift right by 8k of an unsigned integer is a division by 256^k; the cast keeps the low byte. */
  method StoreBe64(p: array<bv8>, at: nat, v: nat)
    requires at + 8 <= p.Length && v < TWO_TO_THE_64
    modifies p
    ensures p[at..at + 8] == BigEndian(v, 8)
    ensures p[..at] == old(p[..at]) && p[at + 8..] == old(p[at + 8..])
  {
    hide LowByte, BigEndian;
    p[at] := LowByte(v / 0x100_0000_0000_0000);
    p[at + 1] := LowByte(v / 0x1_0000_0000_0000);
    p[at + 2] := LowByte(v / 0x100_0000_0000);
    p[at + 3] := LowByte(v / 0x1_0000_0000);
    p[at + 4] := LowByte(v / 0x100_0000);
    p[at + 5] := LowByte(v / 0x1_0000);
    p[at + 6] := LowByte(v / 0x100);
    p[at + 7] := LowByte(v);
    BigEndianOf64(v);
    assert p[at..at + 8] == BigEndian(v, 8);
  }

  lemma BigEndianOf64(v: nat)
    ensures BigEndian(v, 8) == [
      LowByte(v / 0x100_0000_0000_0000), LowByte(v / 0x1_0000_0000_0000), LowByte(v / 0x100_0000_0000),
      LowByte(v / 0x1_0000_0000), LowByte(v / 0x100_0000), LowByte(v / 0x1_0000), LowByte(v / 0x100), LowByte(v)]
  {
    hide LowByte, BigEndian;
    Quotients(v);
    BigEndianOfEight(
      v / 0x100_0000_0000_0000, v / 0x1_0000_0000_0000, v / 0x100_0000_0000, v / 0x1_0000_0000,
      v / 0x100_0000, v / 0x1_0000, v / 0x100, v);
  }

  lemma Quotients(v: nat)
    ensures v / 0x100 / 0x100 == v / 0x1_0000
    ensures v / 0x1_0000 / 0x100 == v / 0x100_0000
    ensures v / 0x100_0000 / 0x100 == v / 0x1_0000_0000
    ensures v / 0x1_0000_0000 / 0x100 == v / 0x100_0000_0000
    ensures v / 0x100_0000_0000 / 0x100 == v / 0x1_0000_0000_0000
    ensures v / 0x1_0000_0000_0000 / 0x100 == v / 0x100_0000_0000_0000
  {
  }

  lemma BigEndianOfEight(a: nat, b: nat, c: nat, d: nat, e: nat, f: nat, g: nat, h: nat)
    requires g == h / 256 && f == g / 256 && e == f / 256 && d == e / 256
    requires c == d / 256 && b == c / 256 && a == b / 256
    ensures BigEndian(h, 8) ==
            [LowByte(a), LowByte(b), LowByte(c), LowByte(d), LowByte(e), LowByte(f), LowByte(g), LowByte(h)]
  {
    hide LowByte, BigEndian;
    BigEndianSplit(h, g, 7);
    BigEndianSplit(g, f, 6);
    BigEndianSplit(f, e, 5);
    BigEndianSplit(e, d, 4);
    BigEndianSplit(d, c, 3);
    BigEndianSplit(c, b, 2);
    BigEndianSplit(b, a, 1);
    BigEndianSplit(a, a / 256, 0);
  }

  lemma BigEndianSplit(v: nat, high: nat, width: nat)
    requires high == v / 256
    ensures BigEndian(v, width + 1) == BigEndian(high, width) + [LowByte(v)]
  {
  }

  // The public functions

  datatype Result<T> = Ok(value: T) | InvalidInput

  /** The one-shot digest; a null pointer with a size, or a size whose bit count has no 64-bit value, is refused. */
  method Sha256OneShot(input: array?<bv8>, size: nat) returns (result: Result<Bytes>)
    requires size < TWO_TO_THE_64 && (input != null ==> size <= input.Length)
    ensures result.InvalidInput? <==> (size > 0 && input == null) || size >= 0x2000_0000_0000_0000
    ensures result.Ok? ==> result.value == Sha256(if size == 0 then [] else input[..size])
  {
    hide Sha256, Pad;
    if size > 0 && input == null {
      return InvalidInput;
    }
    if size > (TWO_TO_THE_64 - 1) / 8 {
      return InvalidInput;
    }
    var data := if size == 0 then [] else input[..size];
    var digest := HashChunks([data]);
    assert Concat([data]) == data;
    result := Ok(digest);
  }

  function Concat(chunks: seq<Bytes>): Bytes {
    if chunks == [] then [] else Concat(chunks[..|chunks| - 1]) + chunks[|chunks| - 1]
  }

  /**
   Any run of a context: one update per chunk, empty chunks included, and then finalize.
   The digest depends on the concatenation only and is the digest of FIPS 180-4.
   */
  method HashChunks(chunks: seq<Bytes>) returns (digest: Bytes)
    requires |Concat(chunks)| < 0x2000_0000_0000_0000
    ensures digest == Sha256(Concat(chunks))
  {
    hide HashBlocks, PadWith, Parse;
    var ctx := new Context();
    for i := 0 to |chunks|
      invariant fresh(ctx.Repr) && ctx.Absorbed(Concat(chunks[..i]))
    {
      assert chunks[..i + 1][..i] == chunks[..i];
      ctx.Update(chunks[i], Concat(chunks[..i]));
    }
    assert chunks[..|chunks|] == chunks;
    digest := ctx.Finalize(Concat(chunks));
  }

  /** The bytes that a string of hexadecimal digits stands for. */
  function FromHex(hex: string): (b: seq<nat>)
    requires |hex| % 2 == 0
  {
    if hex == [] then [] else FromHex(hex[..|hex| - 2]) + [16 * HexValue(hex[|hex| - 2]) + HexValue(hex[|hex| - 1])]
  }

  predicate LowerHex(hex: string) { forall c | c in hex :: IsLowerHex(c) }

  /** The loop of sha256_hex: two digits a byte, the high half first. */
  method ToHex(digest: Bytes) returns (hex: string)
    ensures |hex| == 2 * |digest| && LowerHex(hex)
    ensures |FromHex(hex)| == |digest| && forall i | 0 <= i < |digest| :: FromHex(hex)[i] == digest[i] as nat
  {
    hide FromHex, HexValue, IsLowerHex;
    hex := "";
    assert FromHex("") == [] by { FromHexOfNothing(); }
    for i := 0 to |digest|
      invariant |hex| == 2 * i && LowerHex(hex)
      invariant |FromHex(hex)| == i && forall j | 0 <= j < i :: FromHex(hex)[j] == digest[j] as nat
    {
      var pair := HexPair(digest[i]);
      FromHexAppend(hex, pair);
      hex := hex + pair;
    }
  }

  lemma FromHexOfNothing()
    ensures FromHex("") == []
  {
  }

  lemma FromHexAppend(hex: string, pair: string)
    requires |hex| % 2 == 0 && |pair| == 2
    ensures FromHex(hex + pair) == FromHex(hex) + [16 * HexValue(pair[0]) + HexValue(pair[1])]
  {
    hide HexValue;
    var all := hex + pair;
    assert all[..|all| - 2] == hex && all[|all| - 2] == pair[0] && all[|all| - 1] == pair[1];
  }

  method HexPair(byte: bv8) returns (pair: string)
    ensures |pair| == 2 && LowerHex(pair)
    ensures 16 * HexValue(pair[0]) + HexValue(pair[1]) == byte as nat
  {
    var high, low := ((byte >> 4) & 0x0f) as nat, (byte & 0x0f) as nat;
    HalvesOfByte(byte);
    HexDigitValue(high);
    HexDigitValue(low);
    pair := [HEX_DIGITS[high], HEX_DIGITS[low]];
  }

  lemma HalvesOfByte(byte: bv8)
    ensures ((byte >> 4) & 0x0f) as nat < 16 && (byte & 0x0f) as nat < 16
    ensures 16 * ((byte >> 4) & 0x0f) as nat + (byte & 0x0f) as nat == byte as nat
  {
  }
}
