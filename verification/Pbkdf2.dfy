/** PBKDF2 (section 5.2 of RFC 8018) over HMAC (section 2 of RFC 2104), for any compression function. */
module Pbkdf2 {
  type Bytes = seq<bv8>
  type Words = seq<bv64>

  /** SHA-1, SHA-256 and SHA-512 differ in these. `wordSize` is 4 or 8 bytes; the digest is
      all words of the state. */
  datatype Hash = Hash(
    blockSize: nat, wordSize: nat, words: nat, digestSize: nat, lengthSize: nat,
    iv: Words, compress: (Words, Bytes) -> Words)
  {
    ghost predicate Valid() {
      && (wordSize == 4 || wordSize == 8)
      && |iv| == words
      && (forall h, b {:trigger compress(h, b)} :: |h| == words && |b| == blockSize ==> |compress(h, b)| == words)
      && (forall h {:trigger Extract(h, wordSize)} :: |h| == words ==> |Extract(h, wordSize)| == digestSize)
      && 4 <= lengthSize
      && digestSize + 1 + lengthSize <= blockSize < 0x1000_0000
    }
  }

  // ---------------------------------------------------------------- bytes and words

  /** Big-endian, most significant byte first; higher bytes are cut off. */
  function BigEndian(n: nat, len: nat): (r: Bytes)
    ensures |r| == len
  {
    if len == 0 then [] else BigEndian(n / 0x100, len - 1) + [(n % 0x100) as bv8]
  }

  const INT_SIZE: nat := 4

  /** INT(i): four bytes, most significant first. */
  function Int32(n: nat): Bytes {
    BigEndian(n, INT_SIZE)
  }

  /** Each of four bytes by its place, the block counter and the bit length of a short message. */
  lemma FourBytes(n: nat)
    ensures BigEndian(n, 4) == [(n / 0x100_0000 % 0x100) as bv8, (n / 0x1_0000 % 0x100) as bv8,
                                (n / 0x100 % 0x100) as bv8, (n % 0x100) as bv8]
  {
    assert n / 0x100 / 0x100 == n / 0x1_0000 && n / 0x1_0000 / 0x100 == n / 0x100_0000;
    assert BigEndian(n / 0x100_0000, 1) == [(n / 0x100_0000 % 0x100) as bv8];
    assert BigEndian(n / 0x1_0000, 2) == BigEndian(n / 0x100_0000, 1) + [(n / 0x1_0000 % 0x100) as bv8];
    assert BigEndian(n / 0x100, 3) == BigEndian(n / 0x1_0000, 2) + [(n / 0x100 % 0x100) as bv8];
  }

  /** The block counter: four bytes that denote it by their places, most significant first. */
  lemma Int32Bytes(n: nat) returns (d: seq<nat>)
    requires n < 0x1_0000_0000
    ensures |d| == 4 && d[0] < 0x100 && d[1] < 0x100 && d[2] < 0x100 && d[3] < 0x100
    ensures d[0] * 0x100_0000 + d[1] * 0x1_0000 + d[2] * 0x100 + d[3] == n
    ensures Int32(n) == [d[0] as bv8, d[1] as bv8, d[2] as bv8, d[3] as bv8]
  {
    d := Places(n);
    FourBytes(n);
  }

  lemma Places(n: nat) returns (d: seq<nat>)
    requires n < 0x1_0000_0000
    ensures d == [n / 0x100_0000 % 0x100, n / 0x1_0000 % 0x100, n / 0x100 % 0x100, n % 0x100]
    ensures d[0] < 0x100 && d[1] < 0x100 && d[2] < 0x100 && d[3] < 0x100
    ensures d[0] * 0x100_0000 + d[1] * 0x1_0000 + d[2] * 0x100 + d[3] == n
  {
    var a, b := n / 0x100, n / 0x1_0000;
    assert n == 0x100 * a + n % 0x100 && a == 0x100 * b + a % 0x100 && n / 0x100 / 0x100 == b;
    assert b == 0x100 * (n / 0x100_0000) + b % 0x100 && n / 0x100_0000 < 0x100;
    d := [n / 0x100_0000 % 0x100, n / 0x1_0000 % 0x100, n / 0x100 % 0x100, n % 0x100];
  }

  function Zeros(n: nat): (r: Bytes)
    ensures |r| == n
    ensures forall i :: 0 <= i < n ==> r[i] == 0
  {
    seq(n, _ => 0)
  }

  function LowByte(w: bv64): bv8 {
    (w & 0xff) as bv8
  }

  /** write32_be and write64_be of one state word: its low bytes, most significant first. */
  function WordBytes(w: bv64, wordSize: nat): (r: Bytes)
    ensures |r| == wordSize
  {
    if wordSize == 0 then [] else WordBytes(w >> 8, wordSize - 1) + [LowByte(w)]
  }

  /** Byte i of a word of 4 or 8 bytes, by shift and mask. */
  lemma WordBytesAre(w: bv64)
    ensures WordBytes(w, 4) == [((w >> 24) & 0xff) as bv8, ((w >> 16) & 0xff) as bv8,
                                ((w >> 8) & 0xff) as bv8, (w & 0xff) as bv8]
    ensures WordBytes(w, 8) == [((w >> 56) & 0xff) as bv8, ((w >> 48) & 0xff) as bv8,
                                ((w >> 40) & 0xff) as bv8, ((w >> 32) & 0xff) as bv8] + WordBytes(w, 4)
  {
    FourLow(w);
    FourLow(w >> 32);
    FourMore(w, 4);
    assert (w >> 32) >> 24 == w >> 56 && (w >> 32) >> 16 == w >> 48 && (w >> 32) >> 8 == w >> 40;
  }

  lemma FourLow(w: bv64)
    ensures WordBytes(w, 4) == [LowByte(w >> 24), LowByte(w >> 16), LowByte(w >> 8), LowByte(w)]
  {
    FourMore(w, 0);
    assert WordBytes(w >> 32, 0) == [];
  }

  lemma FourMore(w: bv64, n: nat)
    ensures WordBytes(w, n + 4) ==
      WordBytes(w >> 32, n) + [LowByte(w >> 24), LowByte(w >> 16), LowByte(w >> 8), LowByte(w)]
  {
    assert (w >> 8) >> 8 == w >> 16 && (w >> 16) >> 8 == w >> 24 && (w >> 24) >> 8 == w >> 32;
    assert WordBytes(w, n + 4) == WordBytes(w >> 8, n + 3) + [LowByte(w)];
    assert WordBytes(w >> 8, n + 3) == WordBytes(w >> 16, n + 2) + [LowByte(w >> 8)];
    assert WordBytes(w >> 16, n + 2) == WordBytes(w >> 24, n + 1) + [LowByte(w >> 16)];
    assert WordBytes(w >> 24, n + 1) == WordBytes(w >> 32, n) + [LowByte(w >> 24)];
  }

  function Extract(h: Words, wordSize: nat): Bytes
    requires wordSize == 4 || wordSize == 8
  {
    Encoded(h, w => WordBytes(w, wordSize))
  }

  function Encoded(h: Words, enc: bv64 -> Bytes): Bytes {
    if h == [] then [] else enc(h[0]) + Encoded(h[1..], enc)
  }

  lemma {:induction false} EncodedLength(h: Words, enc: bv64 -> Bytes, n: nat)
    requires forall w :: |enc(w)| == n
    ensures |Encoded(h, enc)| == n * |h|
    decreases |h|
  {
    if h != [] {
      EncodedLength(h[1..], enc, n);
      assert n * |h| == n + n * |h[1..]|;
    }
  }

  lemma ExtractLength(h: Words, wordSize: nat)
    requires wordSize == 4 || wordSize == 8
    ensures |Extract(h, wordSize)| == wordSize * |h|
  {
    EncodedLength(h, w => WordBytes(w, wordSize), wordSize);
  }

  function Xor(a: Bytes, b: Bytes): (r: Bytes)
    requires |a| == |b|
    ensures |r| == |a|
  {
    seq(|a|, i requires 0 <= i < |a| => a[i] ^ b[i])
  }

  /** _xxor: the state words combined one by one. */
  function XorWords(a: Words, b: Words): (r: Words)
    requires |a| == |b|
    ensures |r| == |a|
  {
    if a == [] then [] else [a[0] ^ b[0]] + XorWords(a[1..], b[1..])
  }

  lemma LowByteXor(a: bv64, b: bv64)
    ensures LowByte(a ^ b) == LowByte(a) ^ LowByte(b)
  {
  }

  lemma ShiftXor(a: bv64, b: bv64)
    ensures (a ^ b) >> 8 == (a >> 8) ^ (b >> 8)
  {
  }

  lemma {:induction false} WordBytesXor(a: bv64, b: bv64, wordSize: nat)
    ensures WordBytes(a ^ b, wordSize) == Xor(WordBytes(a, wordSize), WordBytes(b, wordSize))
    decreases wordSize
  {
    if wordSize > 0 {
      ShiftXor(a, b);
      LowByteXor(a, b);
      WordBytesXor(a >> 8, b >> 8, wordSize - 1);
      XorAppend(WordBytes(a >> 8, wordSize - 1), WordBytes(b >> 8, wordSize - 1), [LowByte(a)], [LowByte(b)]);
    }
  }

  lemma XorAppend(a: Bytes, b: Bytes, c: Bytes, d: Bytes)
    requires |a| == |b| && |c| == |d|
    ensures Xor(a + c, b + d) == Xor(a, b) + Xor(c, d)
  {
  }

  ghost predicate Splits(enc: bv64 -> Bytes, x: bv64, y: bv64) {
    |enc(x)| == |enc(y)| && enc(x ^ y) == Xor(enc(x), enc(y))
  }

  lemma XorWordsTail(a: Words, b: Words)
    requires |a| == |b| > 0
    ensures XorWords(a, b)[0] == a[0] ^ b[0] && XorWords(a, b)[1..] == XorWords(a[1..], b[1..])
  {
  }

  /** `x` is a xor b, one word after another. */
  lemma {:induction false} EncodedXor(a: Words, b: Words, x: Words, enc: bv64 -> Bytes)
    requires |a| == |b| && x == XorWords(a, b) && forall x, y :: Splits(enc, x, y)
    ensures |Encoded(a, enc)| == |Encoded(b, enc)|
    ensures Encoded(x, enc) == Xor(Encoded(a, enc), Encoded(b, enc))
    decreases |a|
  {
    if a != [] {
      XorWordsTail(a, b);
      EncodedXor(a[1..], b[1..], x[1..], enc);
      EncodedXorStep(a, b, x, enc);
    }
  }

  lemma EncodedXorStep(a: Words, b: Words, x: Words, enc: bv64 -> Bytes)
    requires |a| == |b| == |x| > 0 && x[0] == a[0] ^ b[0] && Splits(enc, a[0], b[0])
    requires |Encoded(a[1..], enc)| == |Encoded(b[1..], enc)|
    requires Encoded(x[1..], enc) == Xor(Encoded(a[1..], enc), Encoded(b[1..], enc))
    ensures |Encoded(a, enc)| == |Encoded(b, enc)|
    ensures Encoded(x, enc) == Xor(Encoded(a, enc), Encoded(b, enc))
  {
    XorAppend(enc(a[0]), enc(b[0]), Encoded(a[1..], enc), Encoded(b[1..], enc));
  }

  /** The parameters of the three hash functions are valid, whatever their compression. */
  lemma ShaValid(H: Hash)
    requires |H.iv| == H.words
    requires forall h, b {:trigger H.compress(h, b)} ::
      |h| == H.words && |b| == H.blockSize ==> |H.compress(h, b)| == H.words
    requires
      || (H.blockSize, H.wordSize, H.words, H.digestSize, H.lengthSize) == (64, 4, 5, 20, 8)
      || (H.blockSize, H.wordSize, H.words, H.digestSize, H.lengthSize) == (64, 4, 8, 32, 8)
      || (H.blockSize, H.wordSize, H.words, H.digestSize, H.lengthSize) == (128, 8, 8, 64, 16)
    ensures H.Valid()
  {
    forall h: Words | |h| == H.words ensures |Extract(h, H.wordSize)| == H.digestSize {
      ExtractLength(h, H.wordSize);
    }
  }

  /** Combining states word by word is combining their digests byte by byte. */
  lemma ExtractXor(a: Words, b: Words, wordSize: nat)
    requires |a| == |b| && (wordSize == 4 || wordSize == 8)
    ensures |Extract(a, wordSize)| == |Extract(b, wordSize)|
    ensures Extract(XorWords(a, b), wordSize) == Xor(Extract(a, wordSize), Extract(b, wordSize))
  {
    var enc := (w: bv64) => WordBytes(w, wordSize);
    forall x, y ensures Splits(enc, x, y) {
      WordBytesXor(x, y, wordSize);
    }
    EncodedXor(a, b, XorWords(a, b), enc);
    assert Extract(a, wordSize) == Encoded(a, enc) && Extract(b, wordSize) == Encoded(b, enc);
    assert Extract(XorWords(a, b), wordSize) == Encoded(XorWords(a, b), enc);
  }

  // ---------------------------------------------------------------- hashing

  /** Compresses whole blocks from the front; the result is the state and the bytes of the
      last, incomplete block. */
  function Absorb(H: Hash, h: Words, m: Bytes): (r: (Words, Bytes))
    requires H.Valid() && |h| == H.words
    ensures |r.0| == H.words && |r.1| < H.blockSize
    decreases |m|
  {
    if |m| < H.blockSize then (h, m)
    else Absorb(H, H.compress(h, m[..H.blockSize]), m[H.blockSize..])
  }

  /** Number of zero bytes in the padding of an n-byte message: the smallest that completes
      a block. */
  function PadZeros(H: Hash, n: nat): nat
    requires H.Valid()
  {
    (H.blockSize - (n + 1 + H.lengthSize) % H.blockSize) % H.blockSize
  }

  /** What is appended to an n-byte message: a one bit, zeros, the length in bits. */
  function Padding(H: Hash, n: nat): Bytes
    requires H.Valid()
  {
    [0x80] + Zeros(PadZeros(H, n)) + BigEndian(8 * n, H.lengthSize)
  }

  function Digest(H: Hash, m: Bytes): (r: Bytes)
    requires H.Valid()
    ensures |r| == H.digestSize
  {
    var h := Absorb(H, H.iv, m + Padding(H, |m|)).0;
    Extract(h, H.wordSize)
  }

  /** Hashing may be cut anywhere. */
  lemma {:induction false} AbsorbAppend(H: Hash, h: Words, a: Bytes, b: Bytes)
    requires H.Valid() && |h| == H.words
    ensures Absorb(H, h, a + b) == var (h1, rest) := Absorb(H, h, a); Absorb(H, h1, rest + b)
    decreases |a|
  {
    if |a| >= H.blockSize {
      assert (a + b)[..H.blockSize] == a[..H.blockSize];
      assert (a + b)[H.blockSize..] == a[H.blockSize..] + b;
      AbsorbAppend(H, H.compress(h, a[..H.blockSize]), a[H.blockSize..], b);
    }
  }

  lemma AbsorbBlock(H: Hash, h: Words, block: Bytes)
    requires H.Valid() && |h| == H.words && |block| == H.blockSize
    ensures Absorb(H, h, block) == (H.compress(h, block), [])
  {
    assert block[..H.blockSize] == block && block[H.blockSize..] == [];
  }

  // ---------------------------------------------------------------- HMAC

  /** The key as one block: long keys are hashed first, short ones filled with zeros. */
  function KeyBlock(H: Hash, key: Bytes): (r: Bytes)
    requires H.Valid()
    ensures |r| == H.blockSize
  {
    var k := if |key| > H.blockSize then Digest(H, key) else key;
    k + Zeros(H.blockSize - |k|)
  }

  function XorByte(b: Bytes, x: bv8): (r: Bytes)
    ensures |r| == |b|
  {
    seq(|b|, i requires 0 <= i < |b| => x ^ b[i])
  }

  function InnerBlock(H: Hash, key: Bytes): (r: Bytes)
    requires H.Valid()
    ensures |r| == H.blockSize
  {
    XorByte(KeyBlock(H, key), 0x36)
  }

  function OuterBlock(H: Hash, key: Bytes): (r: Bytes)
    requires H.Valid()
    ensures |r| == H.blockSize
  {
    XorByte(KeyBlock(H, key), 0x5c)
  }

  function Hmac(H: Hash, key: Bytes, m: Bytes): (r: Bytes)
    requires H.Valid()
    ensures |r| == H.digestSize
  {
    Digest(H, OuterBlock(H, key) + Digest(H, InnerBlock(H, key) + m))
  }

  // ---------------------------------------------------------------- PBKDF2

  /** A pseudorandom function with outputs of n bytes. */
  ghost predicate IsPrf(prf: Bytes -> Bytes, n: nat) {
    forall m :: |prf(m)| == n
  }

  /** U_j of a block whose first message is `m`. */
  ghost function U(prf: Bytes -> Bytes, m: Bytes, j: nat): Bytes
    requires 1 <= j
  {
    if j == 1 then prf(m) else prf(U(prf, m, j - 1))
  }

  lemma ULength(prf: Bytes -> Bytes, n: nat, m: Bytes, j: nat)
    requires IsPrf(prf, n) && 1 <= j
    ensures |U(prf, m, j)| == n
  {
  }

  /** U_1 xor ... xor U_c */
  ghost function F(prf: Bytes -> Bytes, n: nat, m: Bytes, c: nat): (r: Bytes)
    requires IsPrf(prf, n) && 1 <= c
    ensures |r| == n
  {
    ULength(prf, n, m, c);
    if c == 1 then U(prf, m, 1) else Xor(F(prf, n, m, c - 1), U(prf, m, c))
  }

  /** T_i, from the password's HMAC. */
  ghost function T(prf: Bytes -> Bytes, n: nat, salt: Bytes, i: nat, c: nat): (r: Bytes)
    requires IsPrf(prf, n) && 1 <= c
    ensures |r| == n
  {
    F(prf, n, salt + Int32(i), c)
  }

  function HmacOf(H: Hash, key: Bytes): (prf: Bytes -> Bytes)
    requires H.Valid()
    ensures IsPrf(prf, H.digestSize)
  {
    m => Hmac(H, key, m)
  }

  // ---------------------------------------------------------------- the padding of one block more

  /** The loop-invariant tail: padding behind a digest that follows one whole block. The
      length takes 32 bits. */
  function Tail(H: Hash): (r: Bytes)
    requires H.Valid()
    ensures |r| == H.blockSize - H.digestSize
  {
    [0x80] + Zeros(H.blockSize - H.digestSize - 5) +
    BigEndian(8 * (H.blockSize + H.digestSize), 4)
  }

  lemma {:induction false} BigEndianHigh(n: nat, len: nat, k: nat)
    requires k <= len && n < Pow256(k)
    ensures BigEndian(n, len) == Zeros(len - k) + BigEndian(n, k)
    decreases len
  {
    if k == 0 {
      BigEndianZero(len);
    } else {
      assert Pow256(k) == 0x100 * Pow256(k - 1);
      BigEndianHigh(n / 0x100, len - 1, k - 1);
      assert Zeros(len - k) + (BigEndian(n / 0x100, k - 1) + [(n % 0x100) as bv8])
          == Zeros(len - k) + BigEndian(n / 0x100, k - 1) + [(n % 0x100) as bv8];
    }
  }

  lemma {:induction false} BigEndianZero(len: nat)
    ensures BigEndian(0, len) == Zeros(len)
    decreases len
  {
    if len > 0 {
      BigEndianZero(len - 1);
    }
  }

  function Pow256(k: nat): nat {
    if k == 0 then 1 else 0x100 * Pow256(k - 1)
  }

  /** Everything after the digest in the second block of a keyed hash is Tail. */
  lemma TailIsPadding(H: Hash)
    requires H.Valid()
    ensures Padding(H, H.blockSize + H.digestSize) == Tail(H)
  {
    var B, D, L := H.blockSize, H.digestSize, H.lengthSize;
    ModShift(B, D + 1 + L);
    var k := PadZeros(H, B + D);
    assert k == B - D - 1 - L;
    assert 8 * (B + D) < Pow256(4) by {
      assert Pow256(1) == 0x100 && Pow256(2) == 0x1_0000 && Pow256(3) == 0x100_0000;
    }
    BigEndianHigh(8 * (B + D), L, 4);
    assert Zeros(k) + Zeros(L - 4) == Zeros(B - D - 5);
    var n4 := BigEndian(8 * (B + D), 4);
    assert [0x80] + Zeros(k) + (Zeros(L - 4) + n4) == [0x80] + (Zeros(k) + Zeros(L - 4)) + n4;
  }

  lemma ModShift(b: nat, r: nat)
    requires 0 < r <= b
    ensures (b - (b + r) % b) % b == b - r
  {
    if r == b {
      ModSmall(b, 0);
      ModTwice(b);
    } else {
      ModSmall(b, r);
      assert (b - r) % b == b - r;
    }
  }

  lemma ModTwice(b: nat)
    requires 0 < b
    ensures (b + b) % b == 0
  {
    var q, r := (b + b) / b, (b + b) % b;
    assert b + b == q * b + r;
    assert q == 2;
  }

  lemma ModSmall(b: nat, r: nat)
    requires 0 <= r < b
    ensures (b + r) % b == r
  {
  }

  /** Hash of one block followed by a digest-sized message: two compressions, the second of
      the message and the fixed tail. */
  lemma TwoBlockDigest(H: Hash, block: Bytes, u: Bytes)
    requires H.Valid() && |block| == H.blockSize && |u| == H.digestSize
    ensures |u + Tail(H)| == H.blockSize
    ensures Digest(H, block + u) == Extract(H.compress(H.compress(H.iv, block), u + Tail(H)), H.wordSize)
  {
    TailIsPadding(H);
    assert block + u + Tail(H) == block + (u + Tail(H));
    AbsorbAppend(H, H.iv, block, u + Tail(H));
    AbsorbBlock(H, H.iv, block);
    assert [] + (u + Tail(H)) == u + Tail(H);
    AbsorbBlock(H, H.compress(H.iv, block), u + Tail(H));
  }

  /** The state after the key block of the inner and of the outer hash. */
  function InnerStart(H: Hash, key: Bytes): (r: Words)
    requires H.Valid()
    ensures |r| == H.words
  {
    H.compress(H.iv, InnerBlock(H, key))
  }

  function OuterStart(H: Hash, key: Bytes): (r: Words)
    requires H.Valid()
    ensures |r| == H.words
  {
    H.compress(H.iv, OuterBlock(H, key))
  }

  /** Two compressions of one block with the fixed tail. */
  function FastStep(H: Hash, inner: Words, outer: Words, u: Bytes): (r: Words)
    requires H.Valid() && |inner| == |outer| == H.words && |u| == H.digestSize
    ensures |r| == H.words
  {
    var mid := Extract(H.compress(inner, u + Tail(H)), H.wordSize);
    H.compress(outer, mid + Tail(H))
  }

  /** `prf` on digest-sized messages takes two compressions from the saved states. */
  ghost predicate Fast(H: Hash, inner: Words, outer: Words, prf: Bytes -> Bytes) {
    && H.Valid() && |inner| == |outer| == H.words && IsPrf(prf, H.digestSize)
    && forall u {:trigger FastAt(H, inner, outer, prf, u)} :: |u| == H.digestSize ==>
         FastAt(H, inner, outer, prf, u)
  }

  ghost predicate FastAt(H: Hash, inner: Words, outer: Words, prf: Bytes -> Bytes, u: Bytes)
    requires H.Valid() && |inner| == |outer| == H.words && |u| == H.digestSize
  {
    prf(u) == Extract(FastStep(H, inner, outer, u), H.wordSize)
  }

  lemma FastHmac(H: Hash, key: Bytes, u: Bytes)
    requires H.Valid() && |u| == H.digestSize
    ensures Hmac(H, key, u) ==
            Extract(FastStep(H, InnerStart(H, key), OuterStart(H, key), u), H.wordSize)
  {
    TwoBlockDigest(H, InnerBlock(H, key), u);
    TwoBlockDigest(H, OuterBlock(H, key), Digest(H, InnerBlock(H, key) + u));
  }

  lemma HmacIsFast(H: Hash, key: Bytes)
    requires H.Valid()
    ensures Fast(H, InnerStart(H, key), OuterStart(H, key), HmacOf(H, key))
  {
    forall u | |u| == H.digestSize
      ensures FastAt(H, InnerStart(H, key), OuterStart(H, key), HmacOf(H, key), u)
    {
      FastHmac(H, key, u);
    }
  }
}
