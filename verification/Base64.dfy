/** The base64 coder. `encodeBase64` appends "==" whatever the length and reads
    past its buffer when the length is no multiple of 3; `decodeBase64` reads
    past its string when that length is no multiple of 4. What lies beyond is
    an argument (`beyond`), so every result holds for any such content.
    Masks and shifts are written as division and remainder by powers of two. */
module Base64 {
  import opened Text

  type byte = x: int | 0 <= x < 256
  type sextet = x: int | 0 <= x < 64

  const UPPER := "ABCDEFGHIJKLMNOPQRSTUVWXYZ"
  const LOWER := "abcdefghijklmnopqrstuvwxyz"
  const DIGITS := "0123456789+/"
  const CHARSET := UPPER + LOWER + DIGITS

  /** The alphabet back to six bits; every other character reads as 0. */
  function Transform(c: char): (t: sextet) {
    if 'A' <= c <= 'Z' then c as int - 'A' as int
    else if 'a' <= c <= 'z' then c as int - 'a' as int + ('Z' as int - 'A' as int) + 1
    else if '0' <= c <= '9' then c as int - '0' as int + ('Z' as int - 'A' as int) + ('z' as int - 'a' as int) + 2
    else if c == '+' then 62
    else if c == '/' then 63
    else 0
  }

  predicate InAlphabet(c: char) {
    'A' <= c <= 'Z' || 'a' <= c <= 'z' || '0' <= c <= '9' || c == '+' || c == '/'
  }

  /** `charSet[i]`, by the ranges of the alphabet; `Transform` reads it back. */
  function CharOf(i: sextet): (c: char)
    ensures InAlphabet(c) && Transform(c) == i
  {
    if i < 26 then 'A' + i as char
    else if i < 52 then 'a' + (i - 26) as char
    else if i < 62 then '0' + (i - 52) as char
    else if i == 62 then '+' else '/'
  }

  lemma CharOfIndexesCharset(i: sextet)
    ensures CharOf(i) == CHARSET[i]
  {
    if i < 26 {
      assert CHARSET[i] == UPPER[i];
    } else if i < 52 {
      assert CHARSET[i] == LOWER[i - 26];
    } else {
      assert CHARSET[i] == DIGITS[i - 52];
    }
  }

  /** What `Transform` reads of any character: its place in the alphabet, or 0. */
  lemma TransformExactly(c: char)
    ensures InAlphabet(c) ==> CharOf(Transform(c)) == c
    ensures !InAlphabet(c) ==> Transform(c) == 0
  {
  }

  // ---------- one group ----------

  // The six bits at each of the four places of a group of three bytes.
  function Place0(b0: byte): sextet { b0 / 4 }
  function Place1(b0: byte, b1: byte): sextet { b0 % 4 * 16 + b1 / 16 }
  function Place2(b1: byte, b2: byte): sextet { b1 % 16 * 4 + b2 / 64 }
  function Place3(b2: byte): sextet { b2 % 64 }

  // The bytes rebuilt from those places; the type says each sum stays below 256.
  function Byte0(t0: sextet, t1: sextet): byte { t0 * 4 + t1 / 16 }
  function Byte1(t1: sextet, t2: sextet): byte { t1 % 16 * 16 + t2 / 4 }
  function Byte2(t2: sextet, t3: sextet): byte { t2 % 4 * 64 + t3 }

  /** Three bytes as four characters. */
  function EncodeGroup(b0: byte, b1: byte, b2: byte): (s: string)
    ensures |s| == 4 && forall c <- s :: InAlphabet(c)
  {
    [CharOf(Place0(b0)), CharOf(Place1(b0, b1)), CharOf(Place2(b1, b2)), CharOf(Place3(b2))]
  }

  /** Four characters as at most three bytes: '=' in third or fourth place stops it. */
  function DecodeGroup(c0: char, c1: char, c2: char, c3: char): (bytes: seq<byte>)
    ensures 1 <= |bytes| <= 3
  {
    var first := Byte0(Transform(c0), Transform(c1));
    if c2 == '=' then [first]
    else
      var second := Byte1(Transform(c1), Transform(c2));
      if c3 == '=' then [first, second]
      else [first, second, Byte2(Transform(c2), Transform(c3))]
  }

  type Encoder = (byte, byte, byte) -> string
  type Decoder = (char, char, char, char) -> seq<byte>

  /** A group code: four characters that decode to the three bytes, or to a
      prefix of them when padding takes the last place or the last two. */
  ghost predicate GroupCode(enc: Encoder, dec: Decoder) {
    forall b0: byte, b1: byte, b2: byte ::
      var g := enc(b0, b1, b2);
      && |g| == 4
      && dec(g[0], g[1], g[2], g[3]) == [b0, b1, b2]
      && dec(g[0], g[1], g[2], '=') == [b0, b1]
      && dec(g[0], g[1], '=', '=') == [b0]
  }

  lemma Shift4(high: nat, low: nat)
    requires low < 16
    ensures (high * 16 + low) / 16 == high && (high * 16 + low) % 16 == low
  {
  }

  lemma Shift2(high: nat, low: nat)
    requires low < 4
    ensures (high * 4 + low) / 4 == high && (high * 4 + low) % 4 == low
  {
  }

  lemma Byte0Back(b0: byte, b1: byte)
    ensures Byte0(Place0(b0), Place1(b0, b1)) == b0
  {
    Shift4(b0 % 4, b1 / 16);
  }

  lemma Byte1Back(b0: byte, b1: byte, b2: byte)
    ensures Byte1(Place1(b0, b1), Place2(b1, b2)) == b1
  {
    Shift4(b0 % 4, b1 / 16);
    Shift2(b1 % 16, b2 / 64);
  }

  lemma Byte2Back(b1: byte, b2: byte)
    ensures Byte2(Place2(b1, b2), Place3(b2)) == b2
  {
    Shift2(b1 % 16, b2 / 64);
  }

  /** The decoder on characters of the alphabet, with and without padding. */
  lemma DecodeOfChars(t0: sextet, t1: sextet, t2: sextet, t3: sextet)
    ensures DecodeGroup(CharOf(t0), CharOf(t1), CharOf(t2), CharOf(t3)) == [Byte0(t0, t1), Byte1(t1, t2), Byte2(t2, t3)]
    ensures DecodeGroup(CharOf(t0), CharOf(t1), CharOf(t2), '=') == [Byte0(t0, t1), Byte1(t1, t2)]
    ensures DecodeGroup(CharOf(t0), CharOf(t1), '=', '=') == [Byte0(t0, t1)]
  {
    assert CharOf(t2) != '=' && CharOf(t3) != '=';
  }

  lemma GroupBack(b0: byte, b1: byte, b2: byte)
    ensures var g := EncodeGroup(b0, b1, b2);
            && DecodeGroup(g[0], g[1], g[2], g[3]) == [b0, b1, b2]
            && DecodeGroup(g[0], g[1], g[2], '=') == [b0, b1]
            && DecodeGroup(g[0], g[1], '=', '=') == [b0]
  {
    Byte0Back(b0, b1);
    Byte1Back(b0, b1, b2);
    Byte2Back(b1, b2);
    DecodeOfChars(Place0(b0), Place1(b0, b1), Place2(b1, b2), Place3(b2));
  }

  lemma GroupsFormACode()
    ensures GroupCode(EncodeGroup, DecodeGroup)
  {
    forall b0: byte, b1: byte, b2: byte
      ensures var g := EncodeGroup(b0, b1, b2);
              && DecodeGroup(g[0], g[1], g[2], g[3]) == [b0, b1, b2]
              && DecodeGroup(g[0], g[1], g[2], '=') == [b0, b1]
              && DecodeGroup(g[0], g[1], '=', '=') == [b0]
    {
      GroupBack(b0, b1, b2);
    }
  }

  // ---------- whole buffers ----------

  /** A buffer as the loop reads it, in and out of bounds. */
  function ByteAt(bytes: seq<byte>, beyond: nat -> byte, i: nat): byte {
    if i < |bytes| then bytes[i] else beyond(i - |bytes|)
  }

  /** A `std::string` as the loop reads it: a NUL follows the last character. */
  function CharAt(s: string, beyond: nat -> char, i: nat): char {
    if i < |s| then s[i] else if i == |s| then '\0' else beyond(i - |s| - 1)
  }

  function EncodeBy(enc: Encoder, bytes: seq<byte>, beyond: nat -> byte): string {
    if bytes == [] then "=="
    else
      enc(bytes[0], ByteAt(bytes, beyond, 1), ByteAt(bytes, beyond, 2)) +
      if |bytes| <= 3 then "==" else EncodeBy(enc, bytes[3..], beyond)
  }

  function DecodeBy(dec: Decoder, s: string, beyond: nat -> char): seq<byte> {
    if s == "" then []
    else
      dec(s[0], CharAt(s, beyond, 1), CharAt(s, beyond, 2), CharAt(s, beyond, 3)) +
      if |s| <= 4 then [] else DecodeBy(dec, s[4..], beyond)
  }

  function Encode(bytes: seq<byte>, beyond: nat -> byte): string {
    EncodeBy(EncodeGroup, bytes, beyond)
  }

  function Decode(s: string, beyond: nat -> char): seq<byte> {
    DecodeBy(DecodeGroup, s, beyond)
  }

  /** What the encoding loop still has to emit from position `iter`. */
  function EncodeFrom(enc: Encoder, bytes: seq<byte>, beyond: nat -> byte, iter: nat): string {
    if iter < |bytes| then EncodeBy(enc, bytes[iter..], beyond) else "=="
  }

  lemma EncodeStep(enc: Encoder, bytes: seq<byte>, beyond: nat -> byte, iter: nat)
    requires iter < |bytes|
    ensures EncodeFrom(enc, bytes, beyond, iter) ==
            enc(bytes[iter], ByteAt(bytes, beyond, iter + 1), ByteAt(bytes, beyond, iter + 2)) +
            EncodeFrom(enc, bytes, beyond, iter + 3)
  {
    if iter + 3 < |bytes| {
      assert bytes[iter..][3..] == bytes[iter + 3..];
    }
  }

  /** `encodeBase64`: one group a turn, the last one possibly over-reading. */
  method EncodeBase64(bytes: seq<byte>, beyond: nat -> byte) returns (encoded: string)
    ensures encoded == Encode(bytes, beyond)
  {
    encoded := "";
    var iter := 0;
    while iter < |bytes|
      invariant 0 <= iter
      invariant encoded + EncodeFrom(EncodeGroup, bytes, beyond, iter) == EncodeFrom(EncodeGroup, bytes, beyond, 0)
    {
      EncodeStep(EncodeGroup, bytes, beyond, iter);
      var group := EncodeGroup(bytes[iter], ByteAt(bytes, beyond, iter + 1), ByteAt(bytes, beyond, iter + 2));
      encoded := Append(encoded, group, EncodeFrom(EncodeGroup, bytes, beyond, iter + 3));
      iter := iter + 3;
    }
    encoded := encoded + ['=', '='];
    assert bytes[0..] == bytes;
  }

  /** What the decoding loop still has to produce from position `iter`. */
  function DecodeFrom(dec: Decoder, s: string, beyond: nat -> char, iter: nat): seq<byte> {
    if iter < |s| then DecodeBy(dec, s[iter..], beyond) else []
  }

  lemma DecodeStep(dec: Decoder, s: string, beyond: nat -> char, iter: nat)
    requires iter < |s|
    ensures DecodeFrom(dec, s, beyond, iter) ==
            dec(s[iter], CharAt(s, beyond, iter + 1), CharAt(s, beyond, iter + 2), CharAt(s, beyond, iter + 3)) +
            DecodeFrom(dec, s, beyond, iter + 4)
  {
    if iter + 4 < |s| {
      assert s[iter..][4..] == s[iter + 4..];
    }
  }

  /** `decodeBase64`. */
  method DecodeBase64(s: string, beyond: nat -> char) returns (decoded: seq<byte>)
    ensures decoded == Decode(s, beyond)
  {
    if s == "" {
      return [];
    }
    decoded := [];
    var iter := 0;
    while iter < |s|
      invariant 0 <= iter
      invariant decoded + DecodeFrom(DecodeGroup, s, beyond, iter) == DecodeFrom(DecodeGroup, s, beyond, 0)
    {
      DecodeStep(DecodeGroup, s, beyond, iter);
      var group := DecodeGroup(s[iter], CharAt(s, beyond, iter + 1),
                               CharAt(s, beyond, iter + 2), CharAt(s, beyond, iter + 3));
      decoded := Append(decoded, group, DecodeFrom(DecodeGroup, s, beyond, iter + 4));
      iter := iter + 4;
    }
    assert s[0..] == s;
  }

  // ---------- what the two promise together ----------

  /** ceil(n / 3), by turns of the loop. */
  function Groups(n: nat): (g: nat) {
    if n == 0 then 0 else if n <= 3 then 1 else 1 + Groups(n - 3)
  }

  lemma {:induction false} GroupsIsCeiling(n: nat)
    ensures Groups(n) == (n + 2) / 3
  {
    if n > 3 {
      GroupsIsCeiling(n - 3);
    }
  }

  lemma {:induction false} EncodedGroups(bytes: seq<byte>, beyond: nat -> byte)
    ensures |Encode(bytes, beyond)| == 4 * Groups(|bytes|) + 2
  {
    if |bytes| > 3 {
      EncodedGroups(bytes[3..], beyond);
    }
  }

  /** Four characters for every group of three bytes begun, and "==". */
  lemma EncodeLength(bytes: seq<byte>, beyond: nat -> byte)
    ensures |Encode(bytes, beyond)| == 4 * ((|bytes| + 2) / 3) + 2
  {
    EncodedGroups(bytes, beyond);
    GroupsIsCeiling(|bytes|);
  }

  /** The 512 bytes of a 4096-bit key give 686 characters. */
  lemma EncodeLengthOfKeyBlock(bytes: seq<byte>, beyond: nat -> byte)
    requires |bytes| == 512
    ensures |Encode(bytes, beyond)| == 686
  {
    EncodeLength(bytes, beyond);
  }

  /** Only alphabet characters and '=' appear. */
  lemma {:induction false} EncodeAlphabet(bytes: seq<byte>, beyond: nat -> byte)
    ensures forall c <- Encode(bytes, beyond) :: InAlphabet(c) || c == '='
  {
    if |bytes| > 3 {
      EncodeAlphabet(bytes[3..], beyond);
    }
  }

  lemma DecodeFirstGroup(dec: Decoder, group: string, tail: string, past: nat -> char)
    requires |group| == 4
    ensures DecodeBy(dec, group + tail, past) ==
            dec(group[0], group[1], group[2], group[3]) + DecodeBy(dec, tail, past)
  {
    assert (group + tail)[4..] == tail;
  }

  lemma {:induction false} PrefixBy(enc: Encoder, dec: Decoder, bytes: seq<byte>, beyond: nat -> byte,
                                    past: nat -> char)
    requires GroupCode(enc, dec)
    ensures bytes <= DecodeBy(dec, EncodeBy(enc, bytes, beyond), past)
  {
    if bytes != [] {
      var b1, b2 := ByteAt(bytes, beyond, 1), ByteAt(bytes, beyond, 2);
      var tail := if |bytes| <= 3 then "==" else EncodeBy(enc, bytes[3..], beyond);
      DecodeFirstGroup(dec, enc(bytes[0], b1, b2), tail, past);
      if |bytes| > 3 {
        PrefixBy(enc, dec, bytes[3..], beyond, past);
        assert bytes == [bytes[0], b1, b2] + bytes[3..];
      } else {
        assert bytes == [bytes[0], b1, b2][..|bytes|];
      }
    }
  }

  /** Decoding an encoding restores the buffer as a prefix, whatever either
      side over-reads; the two final '=' leave trailing bytes behind it. */
  lemma DecodeEncodePrefix(bytes: seq<byte>, beyond: nat -> byte, past: nat -> char)
    ensures bytes <= Decode(Encode(bytes, beyond), past)
    ensures |Encode(bytes, beyond)| == 4 * ((|bytes| + 2) / 3) + 2
  {
    GroupsFormACode();
    PrefixBy(EncodeGroup, DecodeGroup, bytes, beyond, past);
    EncodeLength(bytes, beyond);
  }

  /** A 24-bit group, most significant bit first, cut into four 6-bit characters. */
  function StandardGroup(b0: byte, b1: byte, b2: byte): (s: string)
    ensures |s| == 4
  {
    var group := b0 * 65536 + b1 * 256 + b2;
    [CharOf(group / 262144 % 64), CharOf(group / 4096 % 64), CharOf(group / 64 % 64), CharOf(group % 64)]
  }

  function StandardBy(enc: Encoder, bytes: seq<byte>): string
    requires forall b0: byte, b1: byte, b2: byte :: |enc(b0, b1, b2)| == 4
  {
    if bytes == [] then ""
    else if |bytes| == 1 then enc(bytes[0], 0, 0)[..2] + "=="
    else if |bytes| == 2 then enc(bytes[0], bytes[1], 0)[..3] + "="
    else enc(bytes[0], bytes[1], bytes[2]) + StandardBy(enc, bytes[3..])
  }

  /** The padded encoding of section 4 of RFC 4648. */
  function StandardEncode(bytes: seq<byte>): string {
    StandardBy(StandardGroup, bytes)
  }

  lemma {:induction false} ConformsBy(enc: Encoder, dec: Decoder, bytes: seq<byte>, past: nat -> char)
    requires GroupCode(enc, dec)
    ensures DecodeBy(dec, StandardBy(enc, bytes), past) == bytes
  {
    if |bytes| == 1 {
      var g := enc(bytes[0], 0, 0);
      DecodeFirstGroup(dec, [g[0], g[1], '=', '='], "", past);
    } else if |bytes| == 2 {
      var g := enc(bytes[0], bytes[1], 0);
      DecodeFirstGroup(dec, [g[0], g[1], g[2], '='], "", past);
    } else if |bytes| >= 3 {
      ConformsBy(enc, dec, bytes[3..], past);
      DecodeFirstGroup(dec, enc(bytes[0], bytes[1], bytes[2]), StandardBy(enc, bytes[3..]), past);
      assert bytes == [bytes[0], bytes[1], bytes[2]] + bytes[3..];
    }
  }

  lemma StandardPlace0(b0: byte, b1: byte, b2: byte)
    ensures (b0 * 65536 + b1 * 256 + b2) / 262144 % 64 == Place0(b0)
  {
  }

  lemma TopTwelveBits(b0: byte, b1: byte, b2: byte)
    ensures (b0 * 65536 + b1 * 256 + b2) / 4096 == b0 * 16 + b1 / 16
  {
    assert b1 == b1 / 16 * 16 + b1 % 16;
    assert b0 * 65536 + b1 * 256 + b2 == (b0 * 16 + b1 / 16) * 4096 + (b1 % 16 * 256 + b2);
  }

  lemma LowSixBits(b0: byte, high: nat)
    requires high < 16
    ensures (b0 * 16 + high) % 64 == b0 % 4 * 16 + high
  {
    assert b0 * 16 + high == b0 / 4 * 64 + (b0 % 4 * 16 + high);
  }

  lemma StandardPlace1(b0: byte, b1: byte, b2: byte)
    ensures (b0 * 65536 + b1 * 256 + b2) / 4096 % 64 == Place1(b0, b1)
  {
    TopTwelveBits(b0, b1, b2);
    LowSixBits(b0, b1 / 16);
  }

  lemma TopEighteenBits(b0: byte, b1: byte, b2: byte)
    ensures (b0 * 65536 + b1 * 256 + b2) / 64 == b0 * 1024 + b1 * 4 + b2 / 64
  {
    assert b2 == b2 / 64 * 64 + b2 % 64;
    assert b0 * 65536 + b1 * 256 + b2 == (b0 * 1024 + b1 * 4 + b2 / 64) * 64 + b2 % 64;
  }

  lemma MiddleSixBits(b0: byte, b1: byte, high: nat)
    requires high < 4
    ensures (b0 * 1024 + b1 * 4 + high) % 64 == b1 % 16 * 4 + high
  {
    assert b1 == b1 / 16 * 16 + b1 % 16;
    assert b0 * 1024 + b1 * 4 + high == (b0 * 16 + b1 / 16) * 64 + (b1 % 16 * 4 + high);
  }

  lemma StandardPlace2(b0: byte, b1: byte, b2: byte)
    ensures (b0 * 65536 + b1 * 256 + b2) / 64 % 64 == Place2(b1, b2)
  {
    TopEighteenBits(b0, b1, b2);
    MiddleSixBits(b0, b1, b2 / 64);
  }

  lemma StandardPlace3(b0: byte, b1: byte, b2: byte)
    ensures (b0 * 65536 + b1 * 256 + b2) % 64 == Place3(b2)
  {
    assert b0 * 65536 + b1 * 256 + b2 == (b0 * 1024 + b1 * 4 + b2 / 64) * 64 + b2 % 64;
  }

  lemma StandardGroupIsGroup(b0: byte, b1: byte, b2: byte)
    ensures StandardGroup(b0, b1, b2) == EncodeGroup(b0, b1, b2)
  {
    StandardPlace0(b0, b1, b2);
    StandardPlace1(b0, b1, b2);
    StandardPlace2(b0, b1, b2);
    StandardPlace3(b0, b1, b2);
  }

  /** The decoder inverts the standard encoding of every byte string, whatever
      follows the string in memory. */
  lemma DecodeConforms(bytes: seq<byte>, past: nat -> char)
    ensures Decode(StandardEncode(bytes), past) == bytes
  {
    assert GroupCode(StandardGroup, DecodeGroup) by {
      GroupsFormACode();
      forall b0: byte, b1: byte, b2: byte
        ensures StandardGroup(b0, b1, b2) == EncodeGroup(b0, b1, b2)
      {
        StandardGroupIsGroup(b0, b1, b2);
      }
    }
    ConformsBy(StandardGroup, DecodeGroup, bytes, past);
  }

  // ---------- beyond the standard ----------

  /** The bytes that the last turn of the encoding loop over-reads. */
  function OverRead(bytes: seq<byte>, beyond: nat -> byte): (more: seq<byte>)
    ensures (|bytes| + |more|) % 3 == 0 && |more| < 3
  {
    if |bytes| % 3 == 0 then [] else if |bytes| % 3 == 1 then [beyond(0), beyond(1)] else [beyond(0)]
  }

  lemma {:induction false} EncodesBy(enc: Encoder, bytes: seq<byte>, beyond: nat -> byte)
    requires forall b0: byte, b1: byte, b2: byte :: |enc(b0, b1, b2)| == 4
    ensures EncodeBy(enc, bytes, beyond) == StandardBy(enc, bytes + OverRead(bytes, beyond)) + "=="
  {
    var all := bytes + OverRead(bytes, beyond);
    if |bytes| > 3 {
      EncodesBy(enc, bytes[3..], beyond);
      assert all[3..] == bytes[3..] + OverRead(bytes[3..], beyond);
      Associative(enc(bytes[0], bytes[1], bytes[2]), StandardBy(enc, all[3..]), "==");
    } else if bytes != [] {
      assert all[3..] == [] && all[0] == bytes[0];
      assert all[1] == ByteAt(bytes, beyond, 1) && all[2] == ByteAt(bytes, beyond, 2);
    }
  }

  lemma Associative(a: string, b: string, d: string)
    ensures a + b + d == a + (b + d)
  {
  }

  /** The program's encoding is the standard one of the buffer with the bytes it
      over-reads, which needs no padding, and "==" after it in every case. */
  lemma EncodeIsStandard(bytes: seq<byte>, beyond: nat -> byte)
    ensures Encode(bytes, beyond) == StandardEncode(bytes + OverRead(bytes, beyond)) + "=="
  {
    EncodesBy(EncodeGroup, bytes, beyond);
    StandardIsEncode(bytes + OverRead(bytes, beyond));
  }

  lemma {:induction false} StandardIsEncode(bytes: seq<byte>)
    ensures StandardBy(EncodeGroup, bytes) == StandardEncode(bytes)
  {
    if |bytes| == 1 {
      StandardGroupIsGroup(bytes[0], 0, 0);
    } else if |bytes| == 2 {
      StandardGroupIsGroup(bytes[0], bytes[1], 0);
    } else if |bytes| >= 3 {
      StandardGroupIsGroup(bytes[0], bytes[1], bytes[2]);
      StandardIsEncode(bytes[3..]);
    }
  }

  /** The characters that the last turn of the decoding loop over-reads. */
  function PastEnd(s: string, past: nat -> char): (more: string)
    ensures (|s| + |more|) % 4 == 0 && |more| < 4
  {
    if |s| % 4 == 0 then ""
    else if |s| % 4 == 1 then ['\0', past(0), past(1)]
    else if |s| % 4 == 2 then ['\0', past(0)]
    else ['\0']
  }

  lemma WholeDecodes(dec: Decoder, s: string, past: nat -> char, all: string, any: nat -> char)
    requires 0 < |s| <= 4 && all == s + PastEnd(s, past)
    ensures DecodeBy(dec, s, past) == DecodeBy(dec, all, any)
  {
    assert |all| == 4 && all[0] == s[0];
    assert all[1] == CharAt(s, past, 1) && all[2] == CharAt(s, past, 2) && all[3] == CharAt(s, past, 3);
  }

  lemma {:induction false} DecodesBy(dec: Decoder, s: string, past: nat -> char, any: nat -> char)
    ensures DecodeBy(dec, s, past) == DecodeBy(dec, s + PastEnd(s, past), any)
  {
    var all := s + PastEnd(s, past);
    if |s| > 4 {
      DecodesBy(dec, s[4..], past, any);
      assert all[4..] == s[4..] + PastEnd(s[4..], past);
      assert all[0] == s[0] && all[1] == s[1] && all[2] == s[2] && all[3] == s[3];
    } else if s != "" {
      WholeDecodes(dec, s, past, all, any);
    }
  }

  /** The decoding of a text is that of the text with the characters it over-reads. */
  lemma DecodeIsWhole(s: string, past: nat -> char, any: nat -> char)
    ensures Decode(s, past) == Decode(s + PastEnd(s, past), any)
  {
    DecodesBy(DecodeGroup, s, past, any);
  }

  /** Any four characters as 24 bits, most significant first, and the bytes of those
      bits up to the first '=' in third or fourth place. */
  function BitsOf(c0: char, c1: char, c2: char, c3: char): nat {
    Transform(c0) * 262144 + Transform(c1) * 4096 + Transform(c2) * 64 + Transform(c3)
  }

  lemma DecodeGroupIsBits(c0: char, c1: char, c2: char, c3: char)
    ensures var bits := BitsOf(c0, c1, c2, c3);
            DecodeGroup(c0, c1, c2, c3) ==
            [bits / 65536, bits / 256 % 256, bits % 256][..if c2 == '=' then 1 else if c3 == '=' then 2 else 3]
  {
    BytesOfBits(Transform(c0), Transform(c1), Transform(c2), Transform(c3));
  }

  lemma BytesOfBits(t0: sextet, t1: sextet, t2: sextet, t3: sextet)
    ensures var bits := t0 * 262144 + t1 * 4096 + t2 * 64 + t3;
            bits / 65536 == Byte0(t0, t1) && bits / 256 % 256 == Byte1(t1, t2) && bits % 256 == Byte2(t2, t3)
  {
    var a, b, d := Byte0(t0, t1), Byte1(t1, t2), Byte2(t2, t3);
    BitsAreBytes(t0, t1, t2, t3);
    BytesApart(a, b, d);
  }

  lemma BitsAreBytes(t0: sextet, t1: sextet, t2: sextet, t3: sextet)
    ensures t0 * 262144 + t1 * 4096 + t2 * 64 + t3 == Byte0(t0, t1) * 65536 + Byte1(t1, t2) * 256 + Byte2(t2, t3)
  {
    assert t1 == t1 / 16 * 16 + t1 % 16 && t2 == t2 / 4 * 4 + t2 % 4;
  }

  lemma BytesApart(a: byte, b: byte, d: byte)
    ensures var bits := a * 65536 + b * 256 + d;
            bits / 65536 == a && bits / 256 % 256 == b && bits % 256 == d
  {
    var bits := a * 65536 + b * 256 + d;
    assert bits == (a * 256 + b) * 256 + d;
    assert bits / 256 == a * 256 + b && bits % 256 == d;
    assert bits == a * 65536 + (b * 256 + d) && b * 256 + d < 65536;
  }
}
