/**
  The streaming hasher: a 64-byte carry buffer, a rolling 16-word schedule, and HMAC on top.
  Byte pointers are indices; `kmc` and `kms` are parallel assignments over the range they fill.
 */
module Sha256 {
  import opened Fips180

  /**
    The rolling buffer in the middle of pass `i`: slots before `j` hold this pass's schedule
    words and the others still hold the words of the pass before.
   */
  ghost predicate Rolling(block: seq<Byte>, w: seq<Word>, i: nat, j: nat)
    requires |block| == BLOCK && |w| == 16 && i < 4 && j <= 16
  {
    && (forall k :: 0 <= k < j ==> w[k] == W(block, 16 * i + k))
    && (i > 0 ==> forall k :: j <= k < 16 ==> w[k] == W(block, 16 * (i - 1) + k))
  }

  lemma RollingBegin(block: seq<Byte>, w: seq<Word>, i: nat)
    requires |block| == BLOCK && |w| == 16 && i < 4
    requires i > 0 ==> Rolling(block, w, i - 1, 16)
    ensures Rolling(block, w, i, 0)
  {
    hide W;
  }

  lemma RollingPut(block: seq<Byte>, w: seq<Word>, i: nat, j: nat)
    requires |block| == BLOCK && |w| == 16 && i < 4 && j < 16
    requires Rolling(block, w, i, j)
    ensures Rolling(block, w[j := W(block, 16 * i + j)], i, j + 1)
  {
    hide W;
  }

  /** The next schedule word, from four slots of the buffer. */
  lemma RollingStep(block: seq<Byte>, w: seq<Word>, i: nat, j: nat)
    requires |block| == BLOCK && |w| == 16 && 0 < i < 4 && j < 16
    requires Rolling(block, w, i, j)
    ensures Plus(Plus(Plus(w[j], SmallSigma0(w[(j + 1) % 16])), w[(j + 9) % 16]), SmallSigma1(w[(j + 14) % 16]))
            == W(block, 16 * i + j)
  {
    hide W, SmallSigma0, SmallSigma1, Plus;
    var t := 16 * i + j;
    ScheduleOrder(block, t);
    assert w[(j + 1) % 16] == W(block, t - 15);
    assert w[(j + 9) % 16] == W(block, t - 7);
    assert w[(j + 14) % 16] == W(block, t - 2);
    assert w[j] == W(block, t - 16);
  }

  /** The schedule recurrence with its terms in the order the code adds them. */
  lemma ScheduleOrder(block: seq<Byte>, t: nat)
    requires |block| == BLOCK && 16 <= t < 64
    ensures W(block, t) == Plus(Plus(Plus(W(block, t - 16), SmallSigma0(W(block, t - 15))), W(block, t - 7)), SmallSigma1(W(block, t - 2)))
  {
    hide SmallSigma0, SmallSigma1, Plus;
    SumOrder(W(block, t - 16), SmallSigma0(W(block, t - 15)), W(block, t - 7), SmallSigma1(W(block, t - 2)));
  }

  lemma SumOrder(a: Word, b: Word, c: Word, d: Word)
    ensures Plus(Plus(Plus(a, b), c), d) == Plus(Plus(Plus(d, c), b), a)
  {
    hide Plus;
    PlusComm(Plus(Plus(a, b), c), d);
    PlusComm(Plus(a, b), c);
    PlusComm(a, b);
    PlusAssoc(d, c, Plus(b, a));
    PlusAssoc(Plus(d, c), b, a);
  }

  lemma PlusComm(a: Word, b: Word)
    ensures Plus(a, b) == Plus(b, a)
  {
    assert a + b == b + a;
  }

  lemma PlusAssoc(a: Word, b: Word, c: Word)
    ensures Plus(Plus(a, b), c) == Plus(a, Plus(b, c))
  {
    calc {
      Plus(Plus(a, b), c);
      Plus(a, b) + c;
      (a + b) + c;
      a + (b + c);
      a + Plus(b, c);
      Plus(a, Plus(b, c));
    }
  }

  method Consume(h: array<Word>, p: seq<Byte>)
    requires h.Length == 8 && |p| == BLOCK
    modifies h
    ensures h[..] == Compress(old(h[..]), p)
  {
    hide Rolling, Round, W, Plus, K;
    var ah, w := new Word[8], new Word[16];
    ghost var h0 := h[..];
    for i := 0 to 8
      invariant ah[..i] == h0[..i] && h[..] == h0
    {
      ah[i] := h[i];
    }
    assert ah[..] == ah[..8] == h0[..8] == h0;
    for i := 0 to 4
      invariant h[..] == h0
      invariant i > 0 ==> Rolling(p, w[..], i - 1, 16)
      invariant ToWorking(ah[..]) == Rounds(h0, p, 16 * i)
    {
      RollingBegin(p, w[..], i);
      for j := 0 to 16
        invariant h[..] == h0
        invariant Rolling(p, w[..], i, j)
        invariant ToWorking(ah[..]) == Rounds(h0, p, 16 * i + j)
      {
        ScheduleWord(w, p, i, j);
        RoundInPlace(ah, K()[16 * i + j], w[j]);
      }
    }
    AddBack(h, ah, p);
  }

  /** The first half of the inner loop: the next schedule word replaces the one 16 back. */
  method ScheduleWord(w: array<Word>, p: seq<Byte>, i: nat, j: nat)
    requires w.Length == 16 && |p| == BLOCK && i < 4 && j < 16
    requires Rolling(p, w[..], i, j)
    modifies w
    ensures Rolling(p, w[..], i, j + 1) && w[j] == W(p, 16 * i + j)
  {
    hide Rolling, Plus, ToWord, SmallSigma0, SmallSigma1;
    ghost var w0 := w[..];
    RollingPut(p, w0, i, j);
    if i == 0 {
      w[j] := ToWord(p[4 * j], p[4 * j + 1], p[4 * j + 2], p[4 * j + 3]);
    } else {
      RollingStep(p, w0, i, j);
      w[j] := Plus(Plus(Plus(w[j], SmallSigma0(w[(j + 1) % 16])), w[(j + 9) % 16]), SmallSigma1(w[(j + 14) % 16]));
    }
    assert w[..] == w0[j := W(p, 16 * i + j)];
  }

  /** The second half: the eight registers shift by one. */
  method RoundInPlace(ah: array<Word>, k: Word, w: Word)
    requires ah.Length == 8
    modifies ah
    ensures ToWorking(ah[..]) == Round(ToWorking(old(ah[..])), k, w)
  {
    hide Plus, BigSigma0, BigSigma1, Ch, Maj;
    var t1 := Plus(Plus(Plus(Plus(ah[7], BigSigma1(ah[4])), Ch(ah[4], ah[5], ah[6])), k), w);
    var t2 := Plus(BigSigma0(ah[0]), Maj(ah[0], ah[1], ah[2]));
    ah[7] := ah[6]; ah[6] := ah[5]; ah[5] := ah[4]; ah[4] := Plus(ah[3], t1);
    ah[3] := ah[2]; ah[2] := ah[1]; ah[1] := ah[0]; ah[0] := Plus(t1, t2);
  }

  method AddBack(h: array<Word>, ah: array<Word>, p: seq<Byte>)
    requires h.Length == 8 && ah.Length == 8 && h != ah && |p| == BLOCK
    requires ToWorking(ah[..]) == Rounds(h[..], p, 64)
    modifies h
    ensures h[..] == Compress(old(h[..]), p)
  {
    hide Plus, Rounds, Compress, ToWorking;
    ghost var h0, v := h[..], ah[..];
    for i := 0 to 8
      invariant ah[..] == v
      invariant forall k :: i <= k < 8 ==> h[k] == h0[k]
      invariant forall k :: 0 <= k < i ==> h[k] == Plus(v[k], h0[k])
    {
      h[i] := Plus(ah[i], h[i]);
    }
    CompressIs(h0, p, v, h[..]);
  }

  lemma CompressIs(h: seq<Word>, p: seq<Byte>, v: seq<Word>, r: seq<Word>)
    requires |h| == 8 && |p| == BLOCK && |v| == 8 && |r| == 8
    requires ToWorking(v) == Rounds(h, p, 64)
    requires forall k :: 0 <= k < 8 ==> r[k] == Plus(v[k], h[k])
    ensures r == Compress(h, p)
  {
    hide Plus, Rounds;
  }

  // ----- the streaming state

  /** The part of a message that whole blocks cover. */
  function Whole(n: nat): (k: nat)
    ensures k <= n && k % BLOCK == 0 && n - k < BLOCK
  {
    n - n % BLOCK
  }

  class Hasher {
    const hash: array<Byte>
    const chunk: array<Byte>
    const h: array<Word>
    var chunkPos: nat
    var spaceLeft: nat
    var totalLen: nat
    ghost var message: seq<Byte>  // everything written so far

    /** The carry buffer and the chaining value hold exactly the bytes of `m`. */
    ghost predicate Absorbed(m: seq<Byte>)
      reads this`chunkPos, this`spaceLeft, chunk, h
    {
      && hash.Length == 32 && chunk.Length == BLOCK && h.Length == 8 && hash != chunk
      && chunkPos == |m| % BLOCK
      && spaceLeft == BLOCK - chunkPos
      && h[..] == HashBlocks(m[..Whole(|m|)])
      && chunk[..chunkPos] == m[Whole(|m|)..]
    }

    ghost predicate Valid()
      reads this, chunk, h
    {
      Absorbed(message) && totalLen == |message| % TWO64
    }

    constructor Init(hash: array<Byte>)
      requires hash.Length == 32
      ensures Valid() && message == []
      ensures this.hash == hash && fresh(chunk) && fresh(h)
    {
      hide Compress;
      this.hash := hash;
      var c := new Byte[BLOCK];
      chunk := c;
      chunkPos, spaceLeft, totalLen := 0, BLOCK, 0;
      var s := new Word[8];
      s[0], s[1], s[2], s[3] := 0x6a09e667, 0xbb67ae85, 0x3c6ef372, 0xa54ff53a;
      s[4], s[5], s[6], s[7] := 0x510e527f, 0x9b05688c, 0x1f83d9ab, 0x5be0cd19;
      h := s;
      message := [];
      new;
      assert h[..] == H0();
    }

    /** Writing appends to the message, whatever the length and whatever is in the carry buffer. */
    method Write(data: seq<Byte>)
      requires Valid()
      modifies this, chunk, h
      ensures Valid() && message == old(message) + data
    {
      hide Absorbed;
      var len, p := |data|, 0;
      totalLen := (totalLen + len) % TWO64;
      assert message + data[..0] == message;
      while len > 0
        invariant 0 <= p && 0 <= len && p + len == |data|
        invariant message == old(message) && totalLen == |message + data| % TWO64
        invariant Absorbed(message + data[..p])
      {
        ghost var m := message + data[..p];
        if AtBlockStart() && len >= BLOCK {
          AbsorbBlock(m, data[p..p + BLOCK]);
          assert message + data[..p + BLOCK] == m + data[p..p + BLOCK];
          len, p := len - BLOCK, p + BLOCK;
          continue;
        }
        var c := AbsorbSome(m, data[p..]);
        assert message + data[..p + c] == m + data[p..][..c];
        len, p := len - c, p + c;
      }
      assert data[..p] == data;
      message := message + data;
    }

    predicate AtBlockStart()
      reads this
    {
      spaceLeft == BLOCK
    }

    /** A whole block goes to the compression function without being copied. */
    method AbsorbBlock(ghost m: seq<Byte>, block: seq<Byte>)
      requires Absorbed(m) && AtBlockStart() && |block| == BLOCK
      modifies h
      ensures Absorbed(m + block)
    {
      hide Compress, HashBlocks;
      BlockAppended(m, block);
      assert m[..Whole(|m|)] == m;
      Consume(h, block);
    }

    /** As much as fits goes to the carry buffer, which is consumed when it is full. */
    method AbsorbSome(ghost m: seq<Byte>, data: seq<Byte>) returns (c: nat)
      requires Absorbed(m) && |data| > 0
      modifies this, chunk, h
      ensures 0 < c <= |data| && Absorbed(m + data[..c])
      ensures message == old(message) && totalLen == old(totalLen)
    {
      hide Compress, HashBlocks;
      c := if |data| < spaceLeft then |data| else spaceLeft;
      ghost var more := m + data[..c];
      forall k | 0 <= k < c { chunk[chunkPos + k] := data[k]; }
      assert chunk[..chunkPos + c] == m[Whole(|m|)..] + data[..c];
      spaceLeft := spaceLeft - c;
      if spaceLeft == 0 {
        assert chunk[..chunkPos + c] == chunk[..];
        CarryFull(m, data[..c], chunk[..]);
        assert h[..] == old(h[..]);
        Consume(h, chunk[..]);
        chunkPos, spaceLeft := 0, BLOCK;
        assert h[..] == HashBlocks(more[..Whole(|more|)]);
        assert |more| % BLOCK == 0;
      } else {
        chunkPos := chunkPos + c;
        CarryPart(m, data[..c]);
      }
    }

    /** Closing writes the digest of everything written. */
    method Close()
      requires Valid()
      modifies this, chunk, h, hash
      ensures hash[..] == Digest(old(message))
    {
      hide Compress, HashBlocks, BigEndian, Pad, WordsToBytes;
      ghost var msg := message;
      ghost var whole := Whole(|msg|);
      var pos, sl := chunkPos, spaceLeft;
      chunk[pos] := 0x80;
      pos, sl := pos + 1, sl - 1;
      assert chunk[..pos] == msg[whole..] + [0x80];
      ghost var done := msg[..whole];
      assert h[..] == old(h[..]);
      if sl < 8 {
        forall k | 0 <= k < sl { chunk[pos + k] := 0; }
        assert chunk[..] == msg[whole..] + [0x80] + Zeros(sl);
        assert h[..] == old(h[..]);
        BlockAppended(done, chunk[..]);
        done := done + chunk[..];
        Consume(h, chunk[..]);
        pos, sl := 0, BLOCK;
      }
      ghost var h1 := h[..];
      assert h1 == HashBlocks(done);
      var left := sl - 8;
      forall k | 0 <= k < left { chunk[pos + k] := 0; }
      pos := pos + left;
      WriteLength(chunk, totalLen);
      ghost var tail := chunk[..];
      assert done + tail == Pad(msg) by { PadSplit(msg, done, tail); }
      BlockAppended(done, tail);
      assert h[..] == h1;
      Consume(h, chunk[..]);
      assert h[..] == HashBlocks(done + tail);
      assert h[..] == HashBlocks(Pad(msg));
      StoreWords(h, hash);
    }
  }

  lemma BlockAppended(m: seq<Byte>, block: seq<Byte>)
    requires |m| % BLOCK == 0 && |block| == BLOCK
    ensures HashBlocks(m + block) == Compress(HashBlocks(m), block)
    ensures Whole(|m|) == |m| && Whole(|m + block|) == |m + block|
    ensures (m + block)[..|m + block|] == m + block
  {
    hide Compress;
    assert (m + block)[..|m|] == m && (m + block)[|m|..] == block;
  }

  /** The carry buffer has not filled up: no new whole block. */
  lemma CarryPart(m: seq<Byte>, more: seq<Byte>)
    requires |m| - Whole(|m|) + |more| < BLOCK
    ensures Whole(|m + more|) == Whole(|m|)
    ensures (m + more)[..Whole(|m|)] == m[..Whole(|m|)]
    ensures (m + more)[Whole(|m|)..] == m[Whole(|m|)..] + more
  {
  }

  /** The carry buffer has filled up: the message gained one whole block. */
  lemma CarryFull(m: seq<Byte>, more: seq<Byte>, chunk: seq<Byte>)
    requires |m + more| % BLOCK == 0 && 0 < |more| <= BLOCK && |chunk| == BLOCK
    requires chunk == m[Whole(|m|)..] + more
    ensures HashBlocks((m + more)[..Whole(|m + more|)]) == Compress(HashBlocks(m[..Whole(|m|)]), chunk)
  {
    hide Compress, HashBlocks;
    var done := m[..Whole(|m|)];
    assert m + more == done + chunk;
    BlockAppended(done, chunk);
  }

  /** The eight length bytes, shifted out from the last one to the first. */
  method WriteLength(chunk: array<Byte>, total: nat)
    requires chunk.Length == BLOCK
    modifies chunk
    ensures chunk[..56] == old(chunk[..56])
    ensures chunk[56..] == BigEndian(8 * total, 8)
  {
    hide ToByte;
    var len, pos := total, 56;
    chunk[pos + 7] := ToByte((len * 8) % 256);
    len := len / 32;
    var i := 6;
    assert BigEndian(8 * total, 8) == BigEndian(len, 7) + chunk[63..];
    while i >= 0
      invariant -1 <= i <= 6
      invariant chunk[..56] == old(chunk[..56])
      invariant BigEndian(8 * total, 8) == BigEndian(len, i + 1) + chunk[57 + i..]
    {
      chunk[pos + i] := ToByte(len % 256);
      assert chunk[56 + i..] == [ToByte(len % 256)] + chunk[57 + i..];
      len := len / 256;
      i := i - 1;
    }
  }

  function Pow256(n: nat): (r: nat)
    ensures r > 0
  {
    if n == 0 then 1 else 256 * Pow256(n - 1)
  }

  /** Only the low `k` bytes of a number reach its `k`-byte form. */
  lemma {:induction false} BigEndianWraps(n: nat, d: nat, k: nat)
    ensures d * Pow256(k) >= 0 && BigEndian(n + d * Pow256(k), k) == BigEndian(n, k)
  {
    hide ToByte;
    if k > 0 {
      var q := d * Pow256(k - 1);
      assert d * Pow256(k) == 256 * q;
      assert (n + 256 * q) / 256 == n / 256 + q && (n + 256 * q) % 256 == n % 256;
      BigEndianWraps(n / 256, d, k - 1);
    }
  }

  /** The 64-bit byte counter may wrap: the length block is the same. */
  lemma LengthWraps(n: nat)
    ensures BigEndian(8 * (n % TWO64), 8) == BigEndian(8 * n, 8)
  {
    assert Pow256(2) == 0x1_0000 && Pow256(4) == 0x1_0000_0000;
    assert Pow256(6) == 0x1_0000_0000_0000 && Pow256(8) == TWO64;
    BigEndianWraps(8 * (n % TWO64), 8 * (n / TWO64), 8);
    assert 8 * (n % TWO64) + 8 * (n / TWO64) * TWO64 == 8 * n;
  }

  /** What the carry buffer and the final block add to a message is its padding. */
  lemma PadSplit(msg: seq<Byte>, done: seq<Byte>, tail: seq<Byte>)
    requires |tail| == BLOCK
    requires tail[56..] == BigEndian(8 * (|msg| % TWO64), 8)
    requires var whole := Whole(|msg|); var rest := msg[whole..] + [0x80];
             if |rest| > 56 then done == msg[..whole] + (rest + Zeros(BLOCK - |rest|)) && tail[..56] == Zeros(56)
             else done == msg[..whole] && tail[..56] == rest + Zeros(56 - |rest|)
    ensures done + tail == Pad(msg)
  {
    hide BigEndian;
    LengthWraps(|msg|);
    var whole := Whole(|msg|);
    var rest := msg[whole..] + [0x80];
    var len := BigEndian(8 * |msg|, 8);
    assert msg == msg[..whole] + msg[whole..];
    assert tail == tail[..56] + len;
    if |rest| > 56 {
      assert Zeros(BLOCK - |rest|) + Zeros(56) == Zeros(ZeroCount(|msg|));
    }
  }

  method StoreWords(h: array<Word>, hash: array<Byte>)
    requires h.Length == 8 && hash.Length == 32
    modifies hash
    ensures hash[..] == WordsToBytes(h[..])
  {
    hide FromWord;
    var j := 0;
    for i := 0 to 8
      invariant j == 4 * i
      invariant hash[..j] == WordsToBytes(h[..i])
    {
      assert h[..i + 1][..i] == h[..i];
      StoreWord(h[i], hash, j);
      assert hash[..j + 4] == hash[..j] + FromWord(h[i]);
      j := j + 4;
    }
    assert h[..8] == h[..];
    assert hash[..32] == hash[..];
  }

  method StoreWord(w: Word, hash: array<Byte>, j: nat)
    requires j + 4 <= hash.Length
    modifies hash
    ensures hash[..j] == old(hash[..j]) && hash[j..j + 4] == FromWord(w)
  {
    var b0, b1, b2, b3 := (w >> 24) & 0xff, (w >> 16) & 0xff, (w >> 8) & 0xff, w & 0xff;
    hash[j], hash[j + 1], hash[j + 2], hash[j + 3] := b0 as Byte, b1 as Byte, b2 as Byte, b3 as Byte;
  }

  // ----- whole runs

  function Concat(parts: seq<seq<Byte>>): seq<Byte> {
    if |parts| == 0 then [] else Concat(parts[..|parts| - 1]) + parts[|parts| - 1]
  }

  /** Init, any sequence of writes, close: the FIPS 180-4 digest of what was written, however it was cut. */
  method HashParts(parts: seq<seq<Byte>>) returns (digest: seq<Byte>)
    ensures digest == Digest(Concat(parts))
  {
    hide Digest, Hasher.Absorbed;
    var out := new Byte[32];
    var s := new Hasher.Init(out);
    for i := 0 to |parts|
      invariant s.Valid() && fresh(s) && fresh(s.chunk) && fresh(s.h) && s.hash == out
      invariant s.message == Concat(parts[..i])
    {
      assert parts[..i + 1][..i] == parts[..i];
      s.Write(parts[i]);
    }
    assert parts[..|parts|] == parts;
    s.Close();
    digest := out[..];
  }

  method CalcSha256(hash: array<Byte>, input: seq<Byte>)
    requires hash.Length == 32
    modifies hash
    ensures hash[..] == Digest(input)
  {
    hide Digest, Hasher.Absorbed;
    var s := new Hasher.Init(hash);
    s.Write(input);
    assert s.message == input;
    s.Close();
  }

  /** The key block: a long key is hashed first, and zeros fill it up to one block. */
  method KeyBlock(key: seq<Byte>) returns (kPad: array<Byte>)
    ensures fresh(kPad) && kPad[..] == HmacKey(key)
  {
    hide Digest;
    kPad := new Byte[BLOCK](_ => 0);
    if |key| > BLOCK {
      var kh := new Byte[32];
      CalcSha256(kh, key);
      forall k | 0 <= k < 32 { kPad[k] := kh[k]; }
      assert kPad[..] == Digest(key) + Zeros(32);
    } else {
      forall k | 0 <= k < |key| { kPad[k] := key[k]; }
      assert kPad[..] == key + Zeros(BLOCK - |key|);
    }
  }

  /** HMAC-SHA256.  The 32-bit sum 64 + mlen sizes the inner buffer, so it must not wrap. */
  method HmacSha256(key: seq<Byte>, msg: seq<Byte>) returns (out: seq<Byte>)
    requires |key| < 0x1_0000_0000 && BLOCK + |msg| < 0x1_0000_0000
    ensures out == Hmac(key, msg)
  {
    hide Digest, HmacKey;
    var kPad := KeyBlock(key);
    ghost var k0 := kPad[..];
    var iPad, oPad := new Byte[BLOCK], new Byte[BLOCK];
    for i := 0 to BLOCK
      invariant kPad[..] == k0
      invariant forall k :: 0 <= k < i ==> iPad[k] == k0[k] ^ 0x36 && oPad[k] == k0[k] ^ 0x5c
    {
      iPad[i], oPad[i] := kPad[i] ^ 0x36, kPad[i] ^ 0x5c;
    }
    var inner, outer := iPad[..], oPad[..];
    assert inner == XorAll(k0, 0x36) && outer == XorAll(k0, 0x5c);
    var ih, oh := new Byte[32], new Byte[32];
    CalcSha256(ih, inner + msg);
    CalcSha256(oh, outer + ih[..]);
    out := oh[..];
  }
}
