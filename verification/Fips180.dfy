/**
  SHA-256 as section 4.1.2, 5.1.1 and 6.2.2 of FIPS 180-4 define it, over bytes and
  32-bit words, and HMAC as section 2 of RFC 2104 defines it.  Nothing here is shaped
  like the implementation: the schedule has 64 words, the padding is one expression, and
  the hash is a fold over blocks.
 */
module Fips180 {
  type Byte = bv8
  type Word = bv32

  const BLOCK := 64

  function H0(): (r: seq<Word>)
    ensures |r| == 8
  {
    [0x6a09e667, 0xbb67ae85, 0x3c6ef372, 0xa54ff53a, 0x510e527f, 0x9b05688c, 0x1f83d9ab, 0x5be0cd19]
  }

  /** Eight of the sixty-four constants of section 4.2.2. */
  function KRow(i: nat): (r: seq<Word>)
    requires i < 8
    ensures |r| == 8
  {
    match i
    case 0 => [0x428a2f98, 0x71374491, 0xb5c0fbcf, 0xe9b5dba5, 0x3956c25b, 0x59f111f1, 0x923f82a4, 0xab1c5ed5]
    case 1 => [0xd807aa98, 0x12835b01, 0x243185be, 0x550c7dc3, 0x72be5d74, 0x80deb1fe, 0x9bdc06a7, 0xc19bf174]
    case 2 => [0xe49b69c1, 0xefbe4786, 0x0fc19dc6, 0x240ca1cc, 0x2de92c6f, 0x4a7484aa, 0x5cb0a9dc, 0x76f988da]
    case 3 => [0x983e5152, 0xa831c66d, 0xb00327c8, 0xbf597fc7, 0xc6e00bf3, 0xd5a79147, 0x06ca6351, 0x14292967]
    case 4 => [0x27b70a85, 0x2e1b2138, 0x4d2c6dfc, 0x53380d13, 0x650a7354, 0x766a0abb, 0x81c2c92e, 0x92722c85]
    case 5 => [0xa2bfe8a1, 0xa81a664b, 0xc24b8b70, 0xc76c51a3, 0xd192e819, 0xd6990624, 0xf40e3585, 0x106aa070]
    case 6 => [0x19a4c116, 0x1e376c08, 0x2748774c, 0x34b0bcb5, 0x391c0cb3, 0x4ed8aa4a, 0x5b9cca4f, 0x682e6ff3]
    case _ => [0x748f82ee, 0x78a5636f, 0x84c87814, 0x8cc70208, 0x90befffa, 0xa4506ceb, 0xbef9a3f7, 0xc67178f2]
  }

  function K(): (r: seq<Word>)
    ensures |r| == 64
  {
    seq(64, t requires 0 <= t < 64 => KRow(t / 8)[t % 8])
  }

  /** Addition modulo 2^32. */
  function Plus(x: Word, y: Word): Word { x + y }

  /** Section 3.2: rotation to the right. */
  function Rotr(x: Word, n: Word): Word
    requires 0 < n < 32
  {
    (x >> n) | (x << (32 - n))
  }

  // Section 4.1.2: the six logical functions.
  function Ch(x: Word, y: Word, z: Word): Word { (x & y) ^ (!x & z) }
  function Maj(x: Word, y: Word, z: Word): Word { (x & y) ^ (x & z) ^ (y & z) }
  function BigSigma0(x: Word): Word { Rotr(x, 2) ^ Rotr(x, 13) ^ Rotr(x, 22) }
  function BigSigma1(x: Word): Word { Rotr(x, 6) ^ Rotr(x, 11) ^ Rotr(x, 25) }
  function SmallSigma0(x: Word): Word { Rotr(x, 7) ^ Rotr(x, 18) ^ (x >> 3) }
  function SmallSigma1(x: Word): Word { Rotr(x, 17) ^ Rotr(x, 19) ^ (x >> 10) }

  /** Four bytes read as one word, most significant byte first. */
  function ToWord(a: Byte, b: Byte, c: Byte, d: Byte): Word {
    ((a as Word) << 24) | ((b as Word) << 16) | ((c as Word) << 8) | (d as Word)
  }

  /** One word written as four bytes, most significant byte first. */
  function FromWord(w: Word): (r: seq<Byte>)
    ensures |r| == 4
  {
    [((w >> 24) & 0xff) as Byte, ((w >> 16) & 0xff) as Byte, ((w >> 8) & 0xff) as Byte, (w & 0xff) as Byte]
  }

  /** Word `t` of a block. */
  function BlockWord(block: seq<Byte>, t: nat): Word
    requires |block| == BLOCK && t < 16
  {
    ToWord(block[4 * t], block[4 * t + 1], block[4 * t + 2], block[4 * t + 3])
  }

  /** Section 6.2.2, step 1: word `t` of the 64-word message schedule. */
  function W(block: seq<Byte>, t: nat): Word
    requires |block| == BLOCK && t < 64
  {
    if t < 16 then BlockWord(block, t)
    else Plus(Plus(Plus(SmallSigma1(W(block, t - 2)), W(block, t - 7)), SmallSigma0(W(block, t - 15))), W(block, t - 16))
  }

  /** The eight working variables a, b, c, d, e, f, g, h. */
  datatype Working = Working(a: Word, b: Word, c: Word, d: Word, e: Word, f: Word, g: Word, h: Word)

  function ToWorking(s: seq<Word>): Working
    requires |s| == 8
  {
    Working(s[0], s[1], s[2], s[3], s[4], s[5], s[6], s[7])
  }

  /** Section 6.2.2, step 3: one round. */
  function Round(v: Working, k: Word, w: Word): Working {
    var t1 := Plus(Plus(Plus(Plus(v.h, BigSigma1(v.e)), Ch(v.e, v.f, v.g)), k), w);
    var t2 := Plus(BigSigma0(v.a), Maj(v.a, v.b, v.c));
    Working(Plus(t1, t2), v.a, v.b, v.c, Plus(v.d, t1), v.e, v.f, v.g)
  }

  /** The working variables after the first `t` rounds. */
  function Rounds(h: seq<Word>, block: seq<Byte>, t: nat): Working
    requires |h| == 8 && |block| == BLOCK && t <= 64
  {
    if t == 0 then ToWorking(h) else Round(Rounds(h, block, t - 1), K()[t - 1], W(block, t - 1))
  }

  /** Section 6.2.2, steps 2 to 4: the next intermediate hash value. */
  function Compress(h: seq<Word>, block: seq<Byte>): (r: seq<Word>)
    requires |h| == 8 && |block| == BLOCK
    ensures |r| == 8
  {
    var v := Rounds(h, block, 64);
    [Plus(v.a, h[0]), Plus(v.b, h[1]), Plus(v.c, h[2]), Plus(v.d, h[3]),
     Plus(v.e, h[4]), Plus(v.f, h[5]), Plus(v.g, h[6]), Plus(v.h, h[7])]
  }

  /** The hash value after all blocks of a padded message. */
  function HashBlocks(bytes: seq<Byte>): (r: seq<Word>)
    requires |bytes| % BLOCK == 0
    ensures |r| == 8
  {
    if |bytes| == 0 then H0()
    else
      var n := |bytes| - BLOCK;
      Compress(HashBlocks(bytes[..n]), bytes[n..])
  }

  const TWO64 := 0x1_0000_0000_0000_0000

  function ToByte(n: nat): Byte
    requires n < 256
  {
    n as Byte
  }

  /** The low `k` bytes of `n`, most significant byte first. */
  function BigEndian(n: nat, k: nat): (r: seq<Byte>)
    ensures |r| == k
  {
    if k == 0 then [] else BigEndian(n / 256, k - 1) + [ToByte(n % 256)]
  }

  /** The number of zero bytes after the 0x80 byte. */
  function ZeroCount(n: nat): (k: nat)
    ensures (n + 1 + k + 8) % BLOCK == 0 && k < BLOCK
  {
    (119 - n % BLOCK) % BLOCK
  }

  function Zeros(n: nat): (r: seq<Byte>)
    ensures |r| == n
  {
    seq(n, _ => 0)
  }

  /** Section 5.1.1: the padded message. */
  function Pad(msg: seq<Byte>): (r: seq<Byte>)
    ensures |r| % BLOCK == 0
  {
    msg + [0x80] + Zeros(ZeroCount(|msg|)) + BigEndian(8 * |msg|, 8)
  }

  function WordsToBytes(h: seq<Word>): (r: seq<Byte>)
    ensures |r| == 4 * |h|
  {
    if |h| == 0 then [] else WordsToBytes(h[..|h| - 1]) + FromWord(h[|h| - 1])
  }

  /** The message digest. */
  function Digest(msg: seq<Byte>): (r: seq<Byte>)
    ensures |r| == 32
  {
    WordsToBytes(HashBlocks(Pad(msg)))
  }

  // ----- HMAC, section 2 of RFC 2104, with B = 64 and L = 32

  function XorAll(s: seq<Byte>, pad: Byte): (r: seq<Byte>)
    ensures |r| == |s|
  {
    seq(|s|, i requires 0 <= i < |s| => s[i] ^ pad)
  }

  function HmacKey(key: seq<Byte>): (r: seq<Byte>)
    ensures |r| == BLOCK
  {
    var k := if |key| > BLOCK then Digest(key) else key;
    k + Zeros(BLOCK - |k|)
  }

  function Hmac(key: seq<Byte>, msg: seq<Byte>): (r: seq<Byte>)
    ensures |r| == 32
  {
    var k := HmacKey(key);
    Digest(XorAll(k, 0x5c) + Digest(XorAll(k, 0x36) + msg))
  }

  // ----- facts about the definitions

  /** Writing a word and reading it back, in both directions: the two byte orders agree. */
  lemma WordBytes(w: Word, a: Byte, b: Byte, c: Byte, d: Byte)
    ensures var s := FromWord(w); ToWord(s[0], s[1], s[2], s[3]) == w
    ensures FromWord(ToWord(a, b, c, d)) == [a, b, c, d]
  {
  }

  /** The padding adds the least number of bytes that makes room for 0x80 and the length. */
  lemma PadIsLeast(msg: seq<Byte>, n: nat)
    requires n % BLOCK == 0 && n >= |msg| + 9
    ensures |Pad(msg)| <= n
  {
    hide BigEndian;
    var k := ZeroCount(|msg|);
    assert |Pad(msg)| == |msg| + 9 + k;
  }
}
