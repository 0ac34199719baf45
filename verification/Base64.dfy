/**
 Base64 as src/ipc/ipc_protocol.cpp prints and reads it, against section 4 of RFC 4648.
 Bytes and text are byte sequences, as std::string is.
 */
module Base64 {
  import opened Shared

  // Section 4 of RFC 4648: groups of three octets are groups of four 6-bit values.

  /** The alphabet, table 1 of the RFC. */
  function Letter(v: bv8): (c: bv8)
    requires v < 64
    ensures InAlphabet(c)
  {
    if v < 26 then 65 + v        // A-Z
    else if v < 52 then 71 + v   // a-z
    else if v < 62 then v - 4    // 0-9
    else if v == 62 then 43      // +
    else 47                      // /
  }

  predicate InAlphabet(c: bv8) {
    65 <= c <= 90 || 97 <= c <= 122 || 48 <= c <= 57 || c == 43 || c == 47
  }

  /** The 6-bit value of an alphabet character. */
  function Value(c: bv8): (v: bv8)
    requires InAlphabet(c)
    ensures v < 64
  {
    if 65 <= c <= 90 then c - 65
    else if 97 <= c <= 122 then c - 71
    else if 48 <= c <= 57 then c + 4
    else if c == 43 then 62
    else 63
  }

  const PAD: bv8 := 61

  /** The concatenation of three octets. */
  function Octets(a: bv8, b: bv8, c: bv8): bv24 {
    (a as bv24 << 16) | (b as bv24 << 8) | c as bv24
  }

  /** The concatenation of four 6-bit values. */
  function Sextets(p: bv8, q: bv8, r: bv8, s: bv8): bv24
    requires p < 64 && q < 64 && r < 64 && s < 64
  {
    (p as bv24 << 18) | (q as bv24 << 12) | (r as bv24 << 6) | s as bv24
  }

  /** The 6-bit values of a 24-bit group, first to last. */
  function Sextet(g: bv24, k: nat): (v: bv8)
    requires k < 4
    ensures v < 64
  {
    if k == 0 then (g >> 18) as bv8
    else if k == 1 then ((g >> 12) & 63) as bv8
    else if k == 2 then ((g >> 6) & 63) as bv8
    else (g & 63) as bv8
  }

  /** The octets of a 24-bit group, first to last. */
  function Octet(g: bv24, k: nat): bv8
    requires k < 3
  {
    if k == 0 then (g >> 16) as bv8
    else if k == 1 then ((g >> 8) & 255) as bv8
    else (g & 255) as bv8
  }

  /** The first n + 1 characters of a group of n octets, without padding. */
  function GroupText(g: bv24, n: nat): (t: Bytes)
    requires n <= 3
    ensures |t| == n + 1
    ensures AllLetters(t)
  {
    seq(n + 1, k requires 0 <= k <= n => Letter(Sextet(g, k)))
  }

  /** The encoding of the RFC: a last group of one or two octets is completed with zero bits and padded. */
  function Encode(data: Bytes): (t: Bytes)
    ensures |t| == (|data| + 2) / 3 * 4
  {
    if |data| == 0 then []
    else if |data| == 1 then GroupText(Octets(data[0], 0, 0), 1) + [PAD, PAD]
    else if |data| == 2 then GroupText(Octets(data[0], data[1], 0), 2) + [PAD]
    else GroupText(Octets(data[0], data[1], data[2]), 3) + Encode(data[3..])
  }

  /** The length of the longest prefix that consists of alphabet characters. */
  function LetterCount(s: Bytes): (k: nat)
    ensures k <= |s|
    ensures forall i | 0 <= i < k :: InAlphabet(s[i])
    ensures k < |s| ==> !InAlphabet(s[k])
  {
    if s == [] || !InAlphabet(s[0]) then 0 else 1 + LetterCount(s[1..])
  }

  predicate AllLetters(t: Bytes) { forall i | 0 <= i < |t| :: InAlphabet(t[i]) }

  /** The octets of a group of 6-bit values; one lone value holds no octet. */
  function GroupOctets(g: bv24, n: nat): (o: Bytes)
    requires 1 <= n <= 4
    ensures |o| == n - 1
  {
    seq(n - 1, k requires 0 <= k < n - 1 => Octet(g, k))
  }

  /** Missing values of the last group count as zero. */
  function DecodeLetters(t: Bytes): (d: Bytes)
    requires AllLetters(t)
    ensures |d| == 3 * |t| / 4
  {
    if |t| == 0 then []
    else if |t| == 1 then GroupOctets(Sextets(Value(t[0]), 0, 0, 0), 1)
    else if |t| == 2 then GroupOctets(Sextets(Value(t[0]), Value(t[1]), 0, 0), 2)
    else if |t| == 3 then GroupOctets(Sextets(Value(t[0]), Value(t[1]), Value(t[2]), 0), 3)
    else GroupOctets(Sextets(Value(t[0]), Value(t[1]), Value(t[2]), Value(t[3])), 4) + DecodeLetters(t[4..])
  }

  function Decode(s: Bytes): Bytes { DecodeLetters(s[..LetterCount(s)]) }

  /** One left-over octet is followed by two equals signs, two by one, and none by none. */
  lemma {:induction false} EqualsSigns(data: Bytes)
    ensures var t := Encode(data); var k := |t| - Missing(|data|);
            AllLetters(t[..k]) && forall i | k <= i < |t| :: t[i] == 61
  {
    hide GroupText, InAlphabet;
    if |data| >= 3 {
      hide Encode, AllLetters;
      EqualsSigns(data[3..]);
      FirstThree(data);
      LettersFirst(GroupText(Octets(data[0], data[1], data[2]), 3), Encode(data[3..]), Missing(|data|));
    }
  }

  /** How many octets the last group is short of. */
  function Missing(n: nat): (k: nat)
    ensures k == if n % 3 == 0 then 0 else 3 - n % 3
  {
    (3 - n % 3) % 3
  }

  lemma {:induction false} FirstThree(data: Bytes)
    requires |data| >= 3
    ensures Encode(data) == GroupText(Octets(data[0], data[1], data[2]), 3) + Encode(data[3..])
    ensures Missing(|data|) == Missing(|data| - 3)
  {
    hide GroupText, Octets, PAD, Missing;
  }

  lemma LettersFirst(t: Bytes, u: Bytes, signs: nat)
    requires AllLetters(t) && signs <= |u| && AllLetters(u[..|u| - signs])
    requires forall i | |u| - signs <= i < |u| :: u[i] == 61
    ensures AllLetters((t + u)[..|t + u| - signs]) && forall i | |t + u| - signs <= i < |t + u| :: (t + u)[i] == 61
  {
    hide InAlphabet;
    assert (t + u)[..|t + u| - signs] == t + u[..|u| - signs];
  }

  /** The test vectors of section 10 of RFC 4648, for the octets of "foobar". */
  lemma EncodeVectors()
    ensures Encode([]) == [] && Encode([102]) == [90, 103, 61, 61] && Encode([102, 111]) == [90, 109, 56, 61]
    ensures Encode([102, 111, 111]) == [90, 109, 57, 118]
    ensures Encode([102, 111, 111, 98]) == [90, 109, 57, 118, 89, 103, 61, 61]
    ensures Encode([102, 111, 111, 98, 97]) == [90, 109, 57, 118, 89, 109, 69, 61]
    ensures Encode([102, 111, 111, 98, 97, 114]) == [90, 109, 57, 118, 89, 109, 70, 121]
  {
  }

  // Bits of one group

  lemma LetterValue(v: bv8)
    requires v < 64
    ensures InAlphabet(Letter(v)) && Value(Letter(v)) == v
    ensures Letter(v) != PAD && Letter(v) != 0
  {
  }

  lemma ValueLetter(c: bv8)
    requires InAlphabet(c)
    ensures Letter(Value(c)) == c
  {
  }

  /** The masks and shifts of the encoder select the 6-bit values. */
  lemma SextetMasks(a: bv8, b: bv8, c: bv8)
    ensures (a & 0xfc) >> 2 == Sextet(Octets(a, b, c), 0)
    ensures ((a & 0x03) << 4) + ((b & 0xf0) >> 4) == Sextet(Octets(a, b, c), 1)
    ensures ((b & 0x0f) << 2) + ((c & 0xc0) >> 6) == Sextet(Octets(a, b, c), 2)
    ensures c & 0x3f == Sextet(Octets(a, b, c), 3)
  {
  }

  function JoinFirst(p: bv8, q: bv8): bv8 { (p << 2) + ((q & 0x30) >> 4) }

  function JoinSecond(q: bv8, r: bv8): bv8 { ((q & 0x0f) << 4) + ((r & 0x3c) >> 2) }

  function JoinThird(r: bv8, s: bv8): bv8 { ((r & 0x03) << 6) + s }

  /** The masks and shifts of the decoder select the octets. */
  lemma OctetMasks(p: bv8, q: bv8, r: bv8, s: bv8)
    requires p < 64 && q < 64 && r < 64 && s < 64
    ensures JoinFirst(p, q) == Octet(Sextets(p, q, r, s), 0)
    ensures JoinSecond(q, r) == Octet(Sextets(p, q, r, s), 1)
    ensures JoinThird(r, s) == Octet(Sextets(p, q, r, s), 2)
  {
  }

  /** The three bytes that the decoder makes of four indices. */
  function Join(p: bv8, q: bv8, r: bv8, s: bv8): (o: Bytes)
    ensures |o| == 3
  {
    [JoinFirst(p, q), JoinSecond(q, r), JoinThird(r, s)]
  }

  /** A filler of 64 spoils the last byte, as zero would not, but no byte that is kept. */
  lemma FillerIsHarmless(p: bv8, q: bv8, r: bv8)
    requires p < 64 && q < 64 && r < 64
    ensures Join(p, q, 64, 64)[..1] == GroupOctets(Sextets(p, q, 0, 0), 2)
    ensures Join(p, q, r, 64)[..2] == GroupOctets(Sextets(p, q, r, 0), 3)
    ensures Join(p, q, r, 64)[2] == Join(p, q, r, 0)[2] + 64
  {
    hide Octet, Sextets, JoinFirst, JoinSecond;
    KeptBytes(p, q, 0);
    KeptBytes(p, q, r);
  }

  lemma KeptBytes(p: bv8, q: bv8, r: bv8)
    requires p < 64 && q < 64 && r < 64
    ensures JoinFirst(p, q) == Octet(Sextets(p, q, r, 0), 0) && JoinSecond(q, r) == Octet(Sextets(p, q, r, 0), 1)
  {
  }

  lemma SextetsOfOctets(a: bv8, b: bv8, c: bv8)
    ensures var g := Octets(a, b, c); Sextets(Sextet(g, 0), Sextet(g, 1), Sextet(g, 2), Sextet(g, 3)) == g
    ensures var g := Octets(a, b, c); Octet(g, 0) == a && Octet(g, 1) == b && Octet(g, 2) == c
  {
  }

  lemma OctetsOfSextets(p: bv8, q: bv8, r: bv8, s: bv8)
    requires p < 64 && q < 64 && r < 64 && s < 64
    ensures var g := Sextets(p, q, r, s); Octets(Octet(g, 0), Octet(g, 1), Octet(g, 2)) == g
    ensures var g := Sextets(p, q, r, s);
            Sextet(g, 0) == p && Sextet(g, 1) == q && Sextet(g, 2) == r && Sextet(g, 3) == s
  {
  }

  // Whole strings

  lemma {:induction false} LetterCountAppend(t: Bytes, s: Bytes)
    requires AllLetters(t)
    ensures LetterCount(t + s) == |t| + LetterCount(s)
  {
    if t == [] {
      assert t + s == s;
    } else {
      LetterCountAppend(t[1..], s);
      assert (t + s)[1..] == t[1..] + s;
    }
  }

  /** Decoding goes group by group. */
  lemma DecodeGroup(t: Bytes, s: Bytes)
    requires |t| == 4 && AllLetters(t)
    ensures Decode(t + s) == GroupOctets(Sextets(Value(t[0]), Value(t[1]), Value(t[2]), Value(t[3])), 4) + Decode(s)
  {
    LetterCountAppend(t, s);
    var k := LetterCount(s);
    assert (t + s)[..4 + k] == t + s[..k];
    assert (t + s[..k])[4..] == s[..k];
  }

  lemma DecodeTail(t: Bytes, s: Bytes)
    requires |t| < 4 && AllLetters(t) && LetterCount(s) == 0
    ensures LetterCount(t + s) == |t| && Decode(t + s) == DecodeLetters(t)
  {
    LetterCountAppend(t, s);
    assert (t + s)[..|t|] == t;
  }

  lemma TailOctets(a: bv8, b: bv8)
    ensures var g := Octets(a, 0, 0); Octet(Sextets(Sextet(g, 0), Sextet(g, 1), 0, 0), 0) == a
    ensures var g := Octets(a, b, 0); var h := Sextets(Sextet(g, 0), Sextet(g, 1), Sextet(g, 2), 0);
            Octet(h, 0) == a && Octet(h, 1) == b
    ensures Sextet(Octets(a, 0, 0), 1) & 15 == 0 && Sextet(Octets(a, b, 0), 2) & 3 == 0
  {
  }

  lemma GroupTextValues(g: bv24, n: nat)
    requires n <= 3
    ensures forall k | 0 <= k <= n :: Value(GroupText(g, n)[k]) == Sextet(g, k)
  {
    forall k | 0 <= k <= n ensures Value(GroupText(g, n)[k]) == Sextet(g, k) {
      LetterValue(Sextet(g, k));
    }
  }

  /** Decoding undoes encoding, for every byte string. */
  lemma {:induction false} DecodeEncode(data: Bytes)
    ensures Decode(Encode(data)) == data
  {
    hide Value, Letter, Octets, Sextets, Sextet, Octet, GroupText, Decode, Encode;
    EncodeStep(data);
    if |data| == 0 {
      assert Decode([]) == [] by { DecodeTail([], []); }
    } else if |data| == 1 {
      DecodeEncodeOne(data[0]);
    } else if |data| == 2 {
      DecodeEncodeTwo(data[0], data[1]);
    } else {
      DecodeEncodeThree(data[0], data[1], data[2], Encode(data[3..]));
      DecodeEncode(data[3..]);
    }
  }

  lemma DecodeEncodeOne(a: bv8)
    ensures Decode(GroupText(Octets(a, 0, 0), 1) + [PAD, PAD]) == [a]
  {
    hide Value, Letter, Octets, Sextets, Sextet, Octet, GroupText, Decode;
    var t := GroupText(Octets(a, 0, 0), 1);
    GroupTextValues(Octets(a, 0, 0), 1);
    DecodeTail(t, [PAD, PAD]);
    TailOctets(a, 0);
  }

  lemma DecodeEncodeTwo(a: bv8, b: bv8)
    ensures Decode(GroupText(Octets(a, b, 0), 2) + [PAD]) == [a, b]
  {
    hide Value, Letter, Octets, Sextets, Sextet, Octet, GroupText, Decode;
    var t := GroupText(Octets(a, b, 0), 2);
    GroupTextValues(Octets(a, b, 0), 2);
    DecodeTail(t, [PAD]);
    TailOctets(a, b);
  }

  lemma DecodeEncodeThree(a: bv8, b: bv8, c: bv8, rest: Bytes)
    ensures Decode(GroupText(Octets(a, b, c), 3) + rest) == [a, b, c] + Decode(rest)
  {
    hide Value, Letter, Octets, Sextets, Sextet, Octet, GroupText, Decode;
    var g := Octets(a, b, c);
    GroupTextValues(g, 3);
    DecodeGroup(GroupText(g, 3), rest);
    SextetsOfOctets(a, b, c);
  }

  function Padding(k: nat): Bytes {
    if k % 4 == 2 then [PAD, PAD] else if k % 4 == 3 then [PAD] else []
  }

  /** What RFC 4648 asks of an encoding: right padding and, in the last group, zero bits where no octet is. */
  predicate Canonical(s: Bytes) {
    var k := LetterCount(s);
    && k % 4 != 1
    && s[k..] == Padding(k)
    && (k % 4 == 2 ==> Value(s[k - 1]) & 15 == 0)
    && (k % 4 == 3 ==> Value(s[k - 1]) & 3 == 0)
  }

  lemma CanonicalGroup(t: Bytes, s: Bytes)
    requires |t| == 4 && AllLetters(t)
    ensures Canonical(t + s) == Canonical(s)
  {
    hide Value, LetterCount, InAlphabet;
    LetterCountAppend(t, s);
    var k := LetterCount(s);
    PastGroup(t, s, k);
  }

  lemma PastGroup(t: Bytes, s: Bytes, k: nat)
    requires |t| == 4 && k <= |s|
    ensures (t + s)[4 + k..] == s[k..]
    ensures k > 0 ==> (t + s)[4 + k - 1] == s[k - 1]
  {
  }

  lemma {:induction false} EncodeIsCanonical(data: Bytes)
    ensures Canonical(Encode(data))
  {
    hide Value, Letter, Octets, Sextets, Sextet, Octet;
    if |data| == 0 {
    } else if |data| == 1 {
      var g := Octets(data[0], 0, 0);
      GroupTextValues(g, 1);
      DecodeTail(GroupText(g, 1), [PAD, PAD]);
      TailOctets(data[0], 0);
    } else if |data| == 2 {
      var g := Octets(data[0], data[1], 0);
      GroupTextValues(g, 2);
      DecodeTail(GroupText(g, 2), [PAD]);
      TailOctets(data[0], data[1]);
    } else {
      var g := Octets(data[0], data[1], data[2]);
      CanonicalGroup(GroupText(g, 3), Encode(data[3..]));
      EncodeIsCanonical(data[3..]);
    }
  }

  lemma TailSextetsOfTwo(p: bv8, q: bv8)
    requires p < 64 && q < 64 && q & 15 == 0
    ensures var g := Octets(Octet(Sextets(p, q, 0, 0), 0), 0, 0); Sextet(g, 0) == p && Sextet(g, 1) == q
  {
  }

  lemma TailSextetsOfThree(p: bv8, q: bv8, r: bv8)
    requires p < 64 && q < 64 && r < 64 && r & 3 == 0
    ensures
      var h := Sextets(p, q, r, 0);
      var g := Octets(Octet(h, 0), Octet(h, 1), 0);
      Sextet(g, 0) == p && Sextet(g, 1) == q && Sextet(g, 2) == r
  {
    LastOctetIsZero(p, q, r);
    OctetsOfSextets(p, q, r, 0);
  }

  lemma LastOctetIsZero(p: bv8, q: bv8, r: bv8)
    requires p < 64 && q < 64 && r < 64 && r & 3 == 0
    ensures Octet(Sextets(p, q, r, 0), 2) == 0
  {
  }

  lemma GroupTextIs(g: bv24, n: nat, t: Bytes)
    requires n <= 3 && |t| == n + 1 && AllLetters(t)
    requires forall k | 0 <= k <= n :: Sextet(g, k) == Value(t[k])
    ensures GroupText(g, n) == t
  {
    hide Value, Sextet;
    forall k | 0 <= k <= n ensures GroupText(g, n)[k] == t[k] {
      ValueLetter(t[k]);
    }
  }

  lemma {:induction false} EncodeDecodeCanonical(s: Bytes)
    requires Canonical(s)
    ensures Encode(Decode(s)) == s
  {
    hide Value, Letter, Octets, Sextets, Sextet, Octet, InAlphabet, Canonical, GroupText;
    var k := LetterCount(s);
    if k >= 4 {
      var t, rest := s[..4], s[4..];
      assert s == t + rest;
      CanonicalGroup(t, rest);
      DecodeGroup(t, rest);
      EncodeDecodeCanonical(rest);
      var p, q, r, v := Value(t[0]), Value(t[1]), Value(t[2]), Value(t[3]);
      var o := GroupOctets(Sextets(p, q, r, v), 4);
      OctetsOfSextets(p, q, r, v);
      GroupTextIs(Sextets(p, q, r, v), 3, t);
      assert (o + Decode(rest))[3..] == Decode(rest);
    } else {
      EncodeDecodeTail(s[..k], s);
    }
  }

  lemma EncodeDecodeTail(t: Bytes, s: Bytes)
    requires Canonical(s) && |t| == LetterCount(s) < 4 && t == s[..|t|]
    ensures Encode(Decode(s)) == s
  {
    hide Value, Letter, Octets, Sextets, Sextet, Octet;
    assert s == t + Padding(|t|);
    if |t| == 2 {
      var p, q := Value(t[0]), Value(t[1]);
      TailSextetsOfTwo(p, q);
      GroupTextIs(Octets(Octet(Sextets(p, q, 0, 0), 0), 0, 0), 1, t);
    } else if |t| == 3 {
      var p, q, r := Value(t[0]), Value(t[1]), Value(t[2]);
      var h := Sextets(p, q, r, 0);
      TailSextetsOfThree(p, q, r);
      GroupTextIs(Octets(Octet(h, 0), Octet(h, 1), 0), 2, t);
    }
  }

  /** Encoding undoes decoding on canonical strings and on no others. */
  lemma EncodeDecodeExactly(s: Bytes)
    ensures Encode(Decode(s)) == s <==> Canonical(s)
  {
    hide Canonical, Encode, Decode;
    EncodeIsCanonical(Decode(s));
    if Canonical(s) {
      EncodeDecodeCanonical(s);
    }
  }

  /** Everything from the first character outside the alphabet on is ignored. */
  lemma DecodeStops(t: Bytes, c: bv8, rest: Bytes)
    requires AllLetters(t) && !InAlphabet(c)
    ensures Decode(t + [c] + rest) == Decode(t) && |Decode(t)| == 3 * |t| / 4
  {
    LetterCountAppend(t, [c] + rest);
    LetterCountAppend(t, []);
    assert t + [c] + rest == t + ([c] + rest) && t + [] == t;
    assert (t + [c] + rest)[..|t|] == t;
  }

  // The loops of the source

  /** kBase64Chars in rows of eight; a terminating zero follows. */
  const CHARS: seq<Bytes> := [
    [65, 66, 67, 68, 69, 70, 71, 72],
    [73, 74, 75, 76, 77, 78, 79, 80],
    [81, 82, 83, 84, 85, 86, 87, 88],
    [89, 90, 97, 98, 99, 100, 101, 102],
    [103, 104, 105, 106, 107, 108, 109, 110],
    [111, 112, 113, 114, 115, 116, 117, 118],
    [119, 120, 121, 122, 48, 49, 50, 51],
    [52, 53, 54, 55, 56, 57, 43, 47]
  ]

  lemma BelowEight(v: bv8)
    requires v < 8
    ensures v as nat < 8
    ensures v == 0 <==> v as nat == 0
    ensures v == 1 <==> v as nat == 1
    ensures v == 2 <==> v as nat == 2
    ensures v == 3 <==> v as nat == 3
    ensures v == 4 <==> v as nat == 4
    ensures v == 5 <==> v as nat == 5
    ensures v == 6 <==> v as nat == 6
    ensures v == 7 <==> v as nat == 7
  {
  }

  function TableChar(v: bv8): bv8
    requires v <= 64
  {
    if v == 64 then 0
    else
      BelowEight(v >> 3);
      BelowEight(v & 7);
      CHARS[(v >> 3) as nat][(v & 7) as nat]
  }

  /** The string of the source is the alphabet of the RFC. */
  lemma TableIsAlphabet(v: bv8)
    requires v < 64
    ensures TableChar(v) == Letter(v)
  {
    BelowEight(v >> 3);
    BelowEight(v & 7);
  }

  datatype Found = At(index: bv8) | Nowhere

  /** The first place of a character from an index on, the terminator included. */
  function FirstIndex(c: bv8, from: bv8): Found
    requires from <= 64
    decreases 64 - from
  {
    if TableChar(from) == c then At(from) else if from == 64 then Nowhere else FirstIndex(c, from + 1)
  }

  lemma {:induction false} FirstIndexIs(c: bv8, from: bv8)
    requires from <= 64
    ensures match FirstIndex(c, from)
            case At(v) => from <= v <= 64 && TableChar(v) == c && forall u | from <= u < v :: TableChar(u) != c
            case Nowhere => forall u | from <= u <= 64 :: TableChar(u) != c
    decreases 64 - from
  {
    hide TableChar;
    if TableChar(from) != c && from < 64 {
      FirstIndexIs(c, from + 1);
    }
  }

  function Strchr(c: bv8): Found { FirstIndex(c, 0) }

  /** The search inverts indexing, takes the terminator for an entry at 64 and fails on every other character. */
  lemma StrchrInvertsTheTable(c: bv8)
    ensures Strchr(c) == if InAlphabet(c) then At(Value(c)) else if c == 0 then At(64) else Nowhere
  {
    hide TableChar, Letter, Value, FirstIndex;
    FirstIndexIs(c, 0);
    match Strchr(c) {
      case At(v) =>
        if v < 64 {
          TableIsAlphabet(v);
          LetterValue(v);
        } else {
          assert TableChar(64) == 0 by { Terminator(); }
        }
        if InAlphabet(c) && Value(c) != v {
          ValueLetter(c);
          TableIsAlphabet(Value(c));
          LetterValue(Value(c));
        }
      case Nowhere =>
        assert TableChar(64) == 0 by { Terminator(); }
        if InAlphabet(c) {
          ValueLetter(c);
          TableIsAlphabet(Value(c));
        }
    }
  }

  lemma Terminator()
    ensures TableChar(64) == 0 && !InAlphabet(0)
  {
  }

  /** Four 6-bit values from three octets. */
  method SplitOctets(three: array<bv8>, four: array<bv8>)
    requires three.Length == 3 && four.Length == 4 && three != four
    modifies four
    ensures var g := Octets(three[0], three[1], three[2]);
            four[0] == Sextet(g, 0) && four[1] == Sextet(g, 1) && four[2] == Sextet(g, 2) && four[3] == Sextet(g, 3)
    ensures three[..] == old(three[..])
  {
    hide Octets, Sextet;
    SextetMasks(three[0], three[1], three[2]);
    four[0] := (three[0] & 0xfc) >> 2;
    four[1] := ((three[0] & 0x03) << 4) + ((three[1] & 0xf0) >> 4);
    four[2] := ((three[1] & 0x0f) << 2) + ((three[2] & 0xc0) >> 6);
    four[3] := three[2] & 0x3f;
  }

  /** Appends the characters of the first n + 1 values. */
  method AppendLetters(text: Bytes, four: array<bv8>, n: nat, ghost g: bv24) returns (result: Bytes)
    requires four.Length == 4 && n <= 3
    requires forall k | 0 <= k < 4 :: four[k] == Sextet(g, k)
    ensures result == text + GroupText(g, n)
  {
    hide Letter, Sextet, TableChar;
    result := text;
    for j := 0 to n + 1
      invariant result == text + GroupText(g, n)[..j]
    {
      TableIsAlphabet(four[j]);
      result := result + [TableChar(four[j])];
    }
  }

  method Base64Encode(data: Bytes) returns (result: Bytes)
    ensures result == Encode(data)
  {
    hide Encode, Encoding;
    var i, idx := 0, 0;
    var three, four := new bv8[3], new bv8[4];
    result := [];
    EncodingStarts(data, three);
    while idx < |data|
      invariant idx <= |data| && Encoding(data, idx, i, three, result)
    {
      i, result := EncodeOctet(data, idx, i, three, four, result);
      idx := idx + 1;
    }
    result := EncodeRest(data, i, three, four, result);
  }

  /** Of the first idx octets, i wait in the array and the rest has been encoded. */
  ghost predicate Encoding(data: Bytes, idx: nat, i: nat, three: array<bv8>, result: Bytes)
    requires idx <= |data|
    reads three
  {
    && three.Length == 3 && i < 3 && i <= idx
    && three[..i] == data[idx - i..idx]
    && result + Encode(data[idx - i..]) == Encode(data)
  }

  lemma EncodingStarts(data: Bytes, three: array<bv8>)
    requires three.Length == 3
    ensures Encoding(data, 0, 0, three, [])
  {
    hide Encode;
    assert data[0..] == data && [] + Encode(data) == Encode(data);
  }

  /** One pass of the loop. */
  method EncodeOctet(data: Bytes, idx: nat, i: nat, three: array<bv8>, four: array<bv8>, text: Bytes)
      returns (i': nat, result: Bytes)
    requires idx < |data| && Encoding(data, idx, i, three, text) && four.Length == 4 && three != four
    modifies three, four
    ensures Encoding(data, idx + 1, i', three, result)
  {
    hide Encode;
    PutNext(three, i, data, idx);
    i', result := i + 1, text;
    if i' == 3 {
      ghost var left := data[idx - 2..];
      assert left[3..] == data[idx + 1..] && left[..3] == data[idx - 2..idx + 1];
      result := EncodeGroup(text, three, four, left);
      i' := 0;
      assert three[..0] == data[idx + 1..idx + 1];
    } else {
      assert data[idx - i..] == data[idx + 1 - i'..];
    }
  }

  /** What follows the loop. */
  method EncodeRest(data: Bytes, i: nat, three: array<bv8>, four: array<bv8>, text: Bytes) returns (result: Bytes)
    requires Encoding(data, |data|, i, three, text) && four.Length == 4 && three != four
    modifies three, four
    ensures result == Encode(data)
  {
    hide Encode, GroupText, Octets, Sextet;
    assert data[|data| - i..] == three[..i];
    result := text;
    EncodeStep(data[|data| - i..]);
    if i > 0 {
      result := EncodeTail(result, three, four, i);
    }
  }

  /** Puts the next octet of the data behind the i octets that precede it. */
  method PutNext(group: array<bv8>, i: nat, data: Bytes, at: nat)
    requires i < group.Length && i <= at < |data| && group[..i] == data[at - i..at]
    modifies group
    ensures group[..i + 1] == data[at - i..at + 1]
    ensures i + 1 == group.Length ==> group[..] == data[at - i..at + 1]
  {
    group[i] := data[at];
  }

  /** One group of three octets becomes four characters. */
  method EncodeGroup(text: Bytes, three: array<bv8>, four: array<bv8>, ghost left: Bytes) returns (result: Bytes)
    requires three.Length == 3 && four.Length == 4 && three != four && |left| >= 3 && three[..] == left[..3]
    modifies four
    ensures result + Encode(left[3..]) == text + Encode(left)
  {
    hide Encode, GroupText, Octets, Sextet;
    EncodeStep(left);
    SplitOctets(three, four);
    assert three[0] == left[0] && three[1] == left[1] && three[2] == left[2];
    result := AppendLetters(text, four, 3, Octets(three[0], three[1], three[2]));
  }

  lemma EncodeStep(data: Bytes)
    ensures |data| == 0 ==> Encode(data) == []
    ensures |data| == 1 ==> Encode(data) == GroupText(Octets(data[0], 0, 0), 1) + [PAD, PAD]
    ensures |data| == 2 ==> Encode(data) == GroupText(Octets(data[0], data[1], 0), 2) + [PAD]
    ensures |data| >= 3 ==> Encode(data) == GroupText(Octets(data[0], data[1], data[2]), 3) + Encode(data[3..])
  {
    hide Octets, GroupText;
  }

  /** The last group of one or two octets. */
  method EncodeTail(text: Bytes, three: array<bv8>, four: array<bv8>, n: nat) returns (result: Bytes)
    requires three.Length == 3 && four.Length == 4 && three != four && 1 <= n <= 2
    modifies three, four
    ensures result == text + Encode(old(three[..n]))
  {
    hide Octets, Sextet, GroupText, Encode;
    var i := n;
    for j := i to 3
      invariant three[..i] == old(three[..i])
      invariant forall k | i <= k < j :: three[k] == 0
    {
      three[j] := 0;
    }
    SplitOctets(three, four);
    result := AppendLetters(text, four, i, Octets(three[0], three[1], three[2]));
    EncodeStep(old(three[..n]));
    ghost var before := result;
    while i < 3
      invariant n <= i <= 3
      invariant result == before + seq(i - n, _ => PAD)
    {
      result := result + [PAD];
      i := i + 1;
    }
    assert seq(i - n, _ => PAD) == if n == 1 then [PAD, PAD] else [PAD];
  }

  function IndexOrZero(c: bv8): bv8 {
    match Strchr(c) case At(index) => index case Nowhere => 0
  }

  /** Replaces characters by their index; a character that is nowhere becomes 0. */
  method LookUp(four: array<bv8>)
    requires four.Length == 4
    modifies four
    ensures forall k | 0 <= k < 4 :: four[k] == IndexOrZero(old(four[k]))
  {
    hide Strchr;
    for j := 0 to 4
      invariant forall k | 0 <= k < j :: four[k] == IndexOrZero(old(four[k]))
      invariant forall k | j <= k < 4 :: four[k] == old(four[k])
    {
      match Strchr(four[j])
      case At(index) => four[j] := index;
      case Nowhere => four[j] := 0;
    }
  }

  /** Three octets from four indices, the last two of which may be the filler 64. */
  method JoinSextets(four: array<bv8>, three: array<bv8>)
    requires four.Length == 4 && three.Length == 3 && three != four
    modifies three
    ensures three[..] == Join(four[0], four[1], four[2], four[3])
  {
    hide JoinFirst, JoinSecond, JoinThird;
    three[0] := JoinFirst(four[0], four[1]);
    three[1] := JoinSecond(four[1], four[2]);
    three[2] := JoinThird(four[2], four[3]);
  }

  /** The octets kept of a group of n characters, whatever the filler left in the rest. */
  lemma KeptOctets(t: Bytes, four: Bytes, three: Bytes)
    requires 1 <= |t| <= 4 && AllLetters(t) && |four| == 4
    requires forall k | 0 <= k < 4 :: four[k] == if k < |t| then Value(t[k]) else 64
    requires three == Join(four[0], four[1], four[2], four[3])
    ensures three[..|t| - 1] == DecodeLetters(t)
  {
    hide Value, Join, DecodeLetters, InAlphabet;
    match |t| {
      case 1 => KeptOfOne(t);
      case 2 => KeptOfTwo(t);
      case 3 => KeptOfThree(t);
      case 4 => KeptOfFour(t);
    }
  }

  lemma KeptOfOne(t: Bytes)
    requires |t| == 1 && AllLetters(t)
    ensures DecodeLetters(t) == []
  {
  }

  lemma KeptOfTwo(t: Bytes)
    requires |t| == 2 && AllLetters(t)
    ensures Join(Value(t[0]), Value(t[1]), 64, 64)[..1] == DecodeLetters(t)
  {
    hide Value, Join, GroupOctets;
    FillerIsHarmless(Value(t[0]), Value(t[1]), 0);
  }

  lemma KeptOfThree(t: Bytes)
    requires |t| == 3 && AllLetters(t)
    ensures Join(Value(t[0]), Value(t[1]), Value(t[2]), 64)[..2] == DecodeLetters(t)
  {
    hide Value, Join, GroupOctets;
    FillerIsHarmless(Value(t[0]), Value(t[1]), Value(t[2]));
  }

  lemma KeptOfFour(t: Bytes)
    requires |t| == 4 && AllLetters(t)
    ensures Join(Value(t[0]), Value(t[1]), Value(t[2]), Value(t[3]))[..3] == DecodeLetters(t)
  {
    hide Value, Octet, Sextets, JoinFirst, JoinSecond, JoinThird;
    OctetMasks(Value(t[0]), Value(t[1]), Value(t[2]), Value(t[3]));
    assert DecodeLetters(t[4..]) == [];
  }

  /** The indices found for a group and the zeros behind it: the terminator counts as a character of the table. */
  lemma FoundIndices(t: Bytes, four: Bytes)
    requires 1 <= |t| <= 4 && AllLetters(t) && |four| == 4
    requires forall k | 0 <= k < 4 :: four[k] == IndexOrZero(if k < |t| then t[k] else 0)
    ensures forall k | 0 <= k < 4 :: four[k] == if k < |t| then Value(t[k]) else 64
  {
    hide Strchr, Value, InAlphabet;
    assert !InAlphabet(0) by { Terminator(); }
    forall k | 0 <= k < 4 ensures four[k] == if k < |t| then Value(t[k]) else 64 {
      StrchrInvertsTheTable(if k < |t| then t[k] else 0);
    }
  }

  predicate IsAlnum(c: bv8) { 48 <= c <= 57 || 65 <= c <= 90 || 97 <= c <= 122 }

  /** One group: n characters in, n - 1 octets out.  The loop and the tail of the source both end here. */
  method DecodeGroupInPlace(text: Bytes, four: array<bv8>, three: array<bv8>, n: nat, ghost t: Bytes)
      returns (result: Bytes)
    requires four.Length == 4 && three.Length == 3 && three != four
    requires 1 <= n <= 4 && |t| == n && AllLetters(t) && four[..n] == t
    requires forall k | n <= k < 4 :: four[k] == 0
    modifies four, three
    ensures result == text + DecodeLetters(t)
  {
    hide Value, DecodeLetters, InAlphabet, Join, IndexOrZero;
    LookUp(four);
    FoundIndices(t, four[..]);
    JoinSextets(four, three);
    KeptOctets(t, four[..], three[..]);
    result := text;
    for j := 0 to n - 1
      invariant result == text + three[..j]
    {
      result := result + [three[j]];
    }
  }

  method Base64Decode(encoded: Bytes) returns (result: Bytes)
    ensures result == Decode(encoded)
  {
    hide Decode, Decoding, InAlphabet;
    var i, at := 0, 0;
    var four, three := new bv8[4], new bv8[3];
    result := [];
    DecodingStarts(encoded, four);
    while at < |encoded| && encoded[at] != PAD &&
          (IsAlnum(encoded[at]) || encoded[at] == 43 || encoded[at] == 47)
      invariant at <= |encoded| && Decoding(encoded, at, i, four, result)
      decreases |encoded| - at
    {
      LoopGuard(encoded[at]);
      i, result := DecodeLetter(encoded, at, i, four, three, result);
      at := at + 1;
    }
    if at < |encoded| {
      LoopGuard(encoded[at]);
    }
    result := DecodeRest(encoded, at, i, four, three, result);
  }

  /** Of the first at characters, i wait in the array and the rest has been decoded. */
  ghost predicate Decoding(encoded: Bytes, at: nat, i: nat, four: array<bv8>, result: Bytes)
    requires at <= |encoded|
    reads four
  {
    && four.Length == 4 && i < 4 && i <= at && (at - i) % 4 == 0
    && AllLetters(encoded[..at]) && AllLetters(encoded[..at - i])
    && four[..i] == encoded[at - i..at]
    && result == DecodeLetters(encoded[..at - i])
  }

  lemma DecodingStarts(encoded: Bytes, four: array<bv8>)
    requires four.Length == 4
    ensures Decoding(encoded, 0, 0, four, [])
  {
    assert encoded[..0] == [];
  }

  /** One pass of the loop. */
  method DecodeLetter(encoded: Bytes, at: nat, i: nat, four: array<bv8>, three: array<bv8>, text: Bytes)
      returns (i': nat, result: Bytes)
    requires at < |encoded| && InAlphabet(encoded[at]) && Decoding(encoded, at, i, four, text)
    requires three.Length == 3 && three != four
    modifies four, three
    ensures Decoding(encoded, at + 1, i', four, result)
  {
    hide DecodeLetters, InAlphabet, AllLetters;
    PutNext(four, i, encoded, at);
    i', result := i + 1, text;
    assert AllLetters(encoded[..at + 1]) by { OneMoreLetter(encoded, at); }
    assert (at + 1 - i') % 4 == 0;
    assert four[..i'] == encoded[at - i..at] + [encoded[at]] == encoded[at + 1 - i'..at + 1];
    if i' == 4 {
      WholeGroups(at + 1);
      result := DecodeFull(encoded, at + 1, four, three, text);
      i' := 0;
    }
  }

  lemma WholeGroups(n: nat)
    requires (n - 4) % 4 == 0
    ensures n % 4 == 0
  {
  }

  /** The array holds the last four characters seen. */
  method DecodeFull(encoded: Bytes, at: nat, four: array<bv8>, three: array<bv8>, text: Bytes)
      returns (result: Bytes)
    requires 4 <= at <= |encoded| && at % 4 == 0 && AllLetters(encoded[..at]) && AllLetters(encoded[..at - 4])
    requires four.Length == 4 && three.Length == 3 && three != four && four[..4] == encoded[at - 4..at]
    requires text == DecodeLetters(encoded[..at - 4])
    modifies four, three
    ensures Decoding(encoded, at, 0, four, result)
  {
    hide DecodeLetters, InAlphabet, AllLetters;
    DecodeLettersSlice(encoded, at - 4, at);
    result := DecodeGroupInPlace(text, four, three, 4, encoded[at - 4..at]);
    assert four[..0] == encoded[at..at];
  }

  lemma OneMoreLetter(s: Bytes, k: nat)
    requires k < |s| && AllLetters(s[..k]) && InAlphabet(s[k])
    ensures AllLetters(s[..k + 1])
  {
    hide InAlphabet;
    assert s[..k + 1] == s[..k] + [s[k]];
  }

  /** What follows the loop. */
  method DecodeRest(encoded: Bytes, at: nat, i: nat, four: array<bv8>, three: array<bv8>, text: Bytes)
      returns (result: Bytes)
    requires at <= |encoded| && Decoding(encoded, at, i, four, text) && (at < |encoded| ==> !InAlphabet(encoded[at]))
    requires three.Length == 3 && three != four
    modifies four, three
    ensures result == Decode(encoded)
  {
    hide Decode, DecodeLetters, InAlphabet;
    result := text;
    if i > 0 {
      DecodeLettersSlice(encoded, at - i, at);
      result := DecodeTailInPlace(text, four, three, i, encoded[at - i..at]);
    }
    DecodeIs(encoded, at);
  }

  lemma DecodeIs(s: Bytes, k: nat)
    requires k <= |s| && AllLetters(s[..k]) && (k < |s| ==> !InAlphabet(s[k]))
    ensures Decode(s) == DecodeLetters(s[..k])
  {
    LetterCountIs(s, k);
  }

  /** The characters left over at the end; the unused places are zeroed first. */
  method DecodeTailInPlace(text: Bytes, four: array<bv8>, three: array<bv8>, n: nat, ghost t: Bytes)
      returns (result: Bytes)
    requires four.Length == 4 && three.Length == 3 && three != four
    requires 1 <= n < 4 && |t| == n && AllLetters(t) && four[..n] == t
    modifies four, three
    ensures result == text + DecodeLetters(t)
  {
    hide DecodeLetters, InAlphabet;
    for j := n to 4
      invariant four[..n] == t
      invariant forall k | n <= k < j :: four[k] == 0
    {
      four[j] := 0;
    }
    result := DecodeGroupInPlace(text, four, three, n, t);
  }

  lemma DecodeLettersSlice(s: Bytes, from: nat, to: nat)
    requires from <= to <= |s| && from % 4 == 0 && AllLetters(s[..to])
    ensures AllLetters(s[..from]) && AllLetters(s[from..to])
    ensures DecodeLetters(s[..to]) == DecodeLetters(s[..from]) + DecodeLetters(s[from..to])
  {
    hide DecodeLetters, InAlphabet;
    assert forall i | from <= i < to :: s[i] == s[..to][i];
    assert AllLetters(s[from..to]);
    DecodeLettersAppend(s[..from], s[from..to]);
    assert s[..from] + s[from..to] == s[..to];
  }

  lemma LoopGuard(c: bv8)
    ensures InAlphabet(c) <==> c != PAD && (IsAlnum(c) || c == 43 || c == 47)
  {
  }

  lemma DecodeNothing()
    ensures DecodeLetters([]) == []
  {
  }

  lemma {:induction false} FirstGroup(t: Bytes)
    requires AllLetters(t) && |t| >= 4
    ensures DecodeLetters(t) ==
            GroupOctets(Sextets(Value(t[0]), Value(t[1]), Value(t[2]), Value(t[3])), 4) + DecodeLetters(t[4..])
  {
    hide Value, GroupOctets, Sextets, InAlphabet;
  }

  lemma {:induction false} DecodeLettersAppend(t: Bytes, u: Bytes)
    requires AllLetters(t) && AllLetters(u) && |t| % 4 == 0
    ensures AllLetters(t + u) && DecodeLetters(t + u) == DecodeLetters(t) + DecodeLetters(u)
  {
    hide Value, GroupOctets, DecodeLetters, InAlphabet;
    if t == [] {
      DecodeNothing();
      assert t + u == u;
    } else {
      DecodeLettersAppend(t[4..], u);
      assert (t + u)[4..] == t[4..] + u;
      FirstGroup(t);
      FirstGroup(t + u);
    }
  }

  lemma LetterCountIs(s: Bytes, k: nat)
    requires k <= |s| && AllLetters(s[..k]) && (k < |s| ==> !InAlphabet(s[k]))
    ensures LetterCount(s) == k
  {
    LetterCountAppend(s[..k], s[k..]);
    assert s == s[..k] + s[k..];
  }
}
