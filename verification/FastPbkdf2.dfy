/** The fast computation of PBKDF2: two raw compressions of one padded block per iteration. */
module FastPbkdf2 {
  import opened Arith
  import opened Pbkdf2
  import opened Assembly

  // ---------------------------------------------------------------- hash contexts

  /** A streaming hash context: chaining value, bytes of the incomplete block, length. */
  datatype Ctx = Ctx(h: Words, pending: Bytes, total: nat)

  function Init(H: Hash): Ctx {
    Ctx(H.iv, [], 0)
  }

  function Update(H: Hash, c: Ctx, data: Bytes): Ctx
    requires H.Valid() && |c.h| == H.words
  {
    var (h, rest) := Absorb(H, c.h, c.pending + data);
    Ctx(h, rest, c.total + |data|)
  }

  /** Finishing leaves the digest in the chaining value. */
  function Final(H: Hash, c: Ctx): (r: Ctx)
    requires H.Valid() && |c.h| == H.words
    ensures |r.h| == H.words
  {
    Ctx(Absorb(H, c.h, c.pending + Padding(H, c.total)).0, [], c.total)
  }

  /** The context has taken in exactly the bytes m. */
  ghost predicate Holds(H: Hash, c: Ctx, m: Bytes) {
    H.Valid() && (c.h, c.pending) == Absorb(H, H.iv, m) && c.total == |m|
  }

  lemma InitHolds(H: Hash)
    requires H.Valid()
    ensures Holds(H, Init(H), [])
  {
  }

  lemma UpdateHolds(H: Hash, c: Ctx, m: Bytes, data: Bytes)
    requires Holds(H, c, m)
    ensures |c.h| == H.words && Holds(H, Update(H, c, data), m + data)
  {
    AbsorbAppend(H, H.iv, m, data);
  }

  lemma FinalDigest(H: Hash, c: Ctx, m: Bytes)
    requires Holds(H, c, m)
    ensures |c.h| == H.words && Extract(Final(H, c).h, H.wordSize) == Digest(H, m)
  {
    AbsorbAppend(H, H.iv, m, Padding(H, |m|));
  }

  // ---------------------------------------------------------------- in-place helpers

  /** Copies `bytes` to the place `at` of an array. */
  method CopyTo(a: array<bv8>, at: nat, bytes: Bytes)
    requires at + |bytes| <= a.Length
    modifies a
    ensures a[..] == old(a[..])[..at] + bytes + old(a[..])[at + |bytes|..]
  {
    var i := 0;
    while i < |bytes|
      invariant 0 <= i <= |bytes|
      invariant forall p :: 0 <= p < a.Length ==>
        a[p] == if at <= p < at + i then bytes[p - at] else old(a[p])
    {
      a[at + i] := bytes[i];
      i := i + 1;
    }
  }

  /** Replaces the front of an array by as many bytes. */
  method Overwrite(a: array<bv8>, bytes: Bytes, ghost front: Bytes, ghost tail: Bytes)
    requires a[..] == front + tail && |bytes| == |front|
    modifies a
    ensures a[..] == bytes + tail
  {
    CopyTo(a, 0, bytes);
  }

  /** Fills `block` behind its first `used` bytes with the padding of a msg-byte message;
      the length takes 32 bits. */
  method MdPad(block: array<bv8>, used: nat, msg: nat)
    requires used + 5 <= block.Length
    modifies block
    ensures block[..] == old(block[..])[..used] + [0x80] + Zeros(block.Length - used - 5)
                         + BigEndian(8 * msg, 4)
  {
    ghost var before := block[..];
    CopyTo(block, used, Zeros(block.Length - used - 4));
    block[used] := 0x80;
    assert block[..block.Length - 4] == before[..used] + [0x80] + Zeros(block.Length - used - 5);
    CopyTo(block, block.Length - 4, BigEndian(8 * msg, 4));
  }

  // ---------------------------------------------------------------- HMAC states

  ghost predicate Keyed(H: Hash, key: Bytes, inner: Ctx, outer: Ctx) {
    && H.Valid()
    && Holds(H, inner, InnerBlock(H, key)) && Holds(H, outer, OuterBlock(H, key))
    && inner.h == InnerStart(H, key) && outer.h == OuterStart(H, key)
  }

  method PrepareKey(H: Hash, key: Bytes) returns (k: array<bv8>)
    requires H.Valid()
    ensures fresh(k) && k[..] == KeyBlock(H, key)
  {
    k := new bv8[H.blockSize](_ => 0);
    var short := key;
    if |key| > H.blockSize {
      InitHolds(H);
      UpdateHolds(H, Init(H), [], key);
      assert [] + key == key;
      var c := Update(H, Init(H), key);
      FinalDigest(H, c, key);
      short := Extract(Final(H, c).h, H.wordSize);
    }
    assert |short| <= H.blockSize;
    CopyTo(k, 0, short);
    CopyTo(k, |short|, Zeros(H.blockSize - |short|));
  }

  method KeyPads(k: array<bv8>) returns (inner: Bytes, outer: Bytes)
    ensures inner == XorByte(k[..], 0x36) && outer == XorByte(k[..], 0x5c)
  {
    ghost var ipad, opad := XorByte(k[..], 0x36), XorByte(k[..], 0x5c);
    var blkInner := new bv8[k.Length];
    var blkOuter := new bv8[k.Length];
    var i := 0;
    while i < k.Length
      invariant 0 <= i <= k.Length
      invariant forall p :: 0 <= p < i ==> blkInner[p] == ipad[p]
      invariant forall p :: 0 <= p < i ==> blkOuter[p] == opad[p]
    {
      assert ipad[i] == 0x36 ^ k[i] && opad[i] == 0x5c ^ k[i];
      blkInner[i] := 0x36 ^ k[i];
      blkOuter[i] := 0x5c ^ k[i];
      i := i + 1;
    }
    inner, outer := blkInner[..], blkOuter[..];
  }

  /** One HMAC by the book, from the saved states: finish the inner hash, feed its digest to
      the outer one. */
  function HmacCtx(H: Hash, inner: Ctx, outer: Ctx, m: Bytes): (r: Ctx)
    requires H.Valid() && |inner.h| == |outer.h| == H.words
    ensures |r.h| == H.words
  {
    var digest := Extract(Final(H, Update(H, inner, m)).h, H.wordSize);
    Final(H, Update(H, outer, digest))
  }

  /** The saved states compute `prf`, by the book for any message and fast for digests. */
  ghost predicate Computes(H: Hash, inner: Ctx, outer: Ctx, prf: Bytes -> Bytes) {
    && Fast(H, inner.h, outer.h, prf)
    && forall m :: ByTheBook(H, inner, outer, prf, m)
  }

  ghost predicate ByTheBook(H: Hash, inner: Ctx, outer: Ctx, prf: Bytes -> Bytes, m: Bytes)
    requires H.Valid() && |inner.h| == |outer.h| == H.words
  {
    prf(m) == Extract(HmacCtx(H, inner, outer, m).h, H.wordSize)
  }

  lemma KeyedComputes(H: Hash, key: Bytes, inner: Ctx, outer: Ctx)
    requires Keyed(H, key, inner, outer)
    ensures Computes(H, inner, outer, HmacOf(H, key))
  {
    HmacIsFast(H, key);
    forall m ensures ByTheBook(H, inner, outer, HmacOf(H, key), m) {
      HmacByTheBook(H, inner, outer, m, key);
    }
  }

  lemma HmacByTheBook(H: Hash, inner: Ctx, outer: Ctx, m: Bytes, key: Bytes)
    requires Keyed(H, key, inner, outer)
    ensures |inner.h| == |outer.h| == H.words
    ensures Hmac(H, key, m) == Extract(HmacCtx(H, inner, outer, m).h, H.wordSize)
  {
    UpdateHolds(H, inner, InnerBlock(H, key), m);
    FinalDigest(H, Update(H, inner, m), InnerBlock(H, key) + m);
    var digest := Digest(H, InnerBlock(H, key) + m);
    UpdateHolds(H, outer, OuterBlock(H, key), digest);
    FinalDigest(H, Update(H, outer, digest), OuterBlock(H, key) + digest);
  }

  method HmacInit(H: Hash, key: Bytes) returns (inner: Ctx, outer: Ctx)
    requires H.Valid()
    ensures Computes(H, inner, outer, HmacOf(H, key))
  {
    var k := PrepareKey(H, key);
    var blkInner, blkOuter := KeyPads(k);
    KeyedStart(H, InnerBlock(H, key));
    KeyedStart(H, OuterBlock(H, key));
    inner := Update(H, Init(H), blkInner);
    outer := Update(H, Init(H), blkOuter);
    KeyedComputes(H, key, inner, outer);
  }

  lemma KeyedStart(H: Hash, block: Bytes)
    requires H.Valid() && |block| == H.blockSize
    ensures Holds(H, Update(H, Init(H), block), block)
    ensures Update(H, Init(H), block).h == H.compress(H.iv, block)
  {
    InitHolds(H);
    UpdateHolds(H, Init(H), [], block);
    assert [] + block == block;
    AbsorbBlock(H, H.iv, block);
  }

  // ---------------------------------------------------------------- one block

  /** Two raw compressions of the padded block take U_{j-1} to U_j. */
  method NextU(H: Hash, inner: Words, outer: Words, ublock: array<bv8>, ghost u: Bytes,
               ghost prf: Bytes -> Bytes)
    returns (h: Words)
    requires Fast(H, inner, outer, prf) && |u| == H.digestSize
    requires ublock[..] == u + Tail(H)
    modifies ublock
    ensures |h| == H.words && Extract(h, H.wordSize) == prf(u)
    ensures ublock[..] == prf(u) + Tail(H)
  {
    var h1 := H.compress(inner, ublock[..]);
    ghost var mid := Extract(h1, H.wordSize);
    Overwrite(ublock, Extract(h1, H.wordSize), u, Tail(H));
    h := H.compress(outer, ublock[..]);
    assert h == FastStep(H, inner, outer, u) && FastAt(H, inner, outer, prf, u);
    Overwrite(ublock, Extract(h, H.wordSize), mid, Tail(H));
  }

  /** The loop-invariant padding: some bytes to be replaced, then the fixed tail. */
  method PaddedBuffer(size: nat, used: nat) returns (block: array<bv8>, ghost junk: Bytes)
    requires used + 5 <= size
    ensures fresh(block) && |junk| == used
    ensures block[..] == junk + [0x80] + Zeros(size - used - 5) + BigEndian(8 * (size + used), 4)
  {
    block := new bv8[size];
    junk := block[..used];
    MdPad(block, used, size + used);
  }

  method PaddedBlock(H: Hash) returns (ublock: array<bv8>, ghost junk: Bytes)
    requires H.Valid()
    ensures fresh(ublock) && |junk| == H.digestSize && ublock[..] == junk + Tail(H)
  {
    ublock, junk := PaddedBuffer(H.blockSize, H.digestSize);
    RegroupTail(H, junk);
  }

  lemma RegroupTail(H: Hash, u: Bytes)
    requires H.Valid() && |u| == H.digestSize
    ensures u + [0x80] + Zeros(H.blockSize - H.digestSize - 5)
              + BigEndian(8 * (H.blockSize + H.digestSize), 4)
         == u + Tail(H)
  {
  }

  lemma ChainGrows(H: Hash, prf: Bytes -> Bytes, m: Bytes, i: nat, result: Words, next: Words)
    requires H.Valid() && IsPrf(prf, H.digestSize) && 1 <= i && |result| == |next| == H.words
    requires Extract(result, H.wordSize) == F(prf, H.digestSize, m, i)
    requires Extract(next, H.wordSize) == U(prf, m, i + 1)
    ensures Extract(XorWords(result, next), H.wordSize) == F(prf, H.digestSize, m, i + 1)
  {
    ExtractXor(result, next, H.wordSize);
  }

  /** U_1 xor ... xor U_c, given the outer state `h` of U_1. */
  method XorChain(H: Hash, inner: Words, outer: Words, ublock: array<bv8>, h: Words, iterations: nat,
                  ghost m: Bytes, ghost prf: Bytes -> Bytes)
    returns (result: Words)
    requires Fast(H, inner, outer, prf) && 1 <= iterations
    requires |h| == H.words && Extract(h, H.wordSize) == prf(m) && ublock[..] == prf(m) + Tail(H)
    modifies ublock
    ensures |result| == H.words
    ensures Extract(result, H.wordSize) == F(prf, H.digestSize, m, iterations)
  {
    result := h;
    var i := 1;
    while i < iterations
      invariant 1 <= i <= iterations
      invariant |result| == H.words
      invariant ublock[..] == U(prf, m, i) + Tail(H)
      invariant Extract(result, H.wordSize) == F(prf, H.digestSize, m, i)
    {
      ULength(prf, H.digestSize, m, i);
      var next := NextU(H, inner, outer, ublock, U(prf, m, i), prf);
      ChainGrows(H, prf, m, i, result, next);
      result := XorWords(result, next);
      i := i + 1;
    }
  }

  /** The block to reuse, with U_1 in front of the fixed tail, and the state of U_1. */
  method FirstU(H: Hash, inner: Ctx, outer: Ctx, m: Bytes, ghost prf: Bytes -> Bytes)
    returns (ublock: array<bv8>, h: Words)
    requires Computes(H, inner, outer, prf)
    ensures fresh(ublock) && ublock[..] == prf(m) + Tail(H)
    ensures |h| == H.words && Extract(h, H.wordSize) == prf(m)
  {
    ghost var junk;
    ublock, junk := PaddedBlock(H);
    assert ByTheBook(H, inner, outer, prf, m);
    h := HmacCtx(H, inner, outer, m).h;
    Overwrite(ublock, Extract(h, H.wordSize), junk, Tail(H));
  }

  method BlockF(H: Hash, inner: Ctx, outer: Ctx, counter: nat, salt: Bytes, iterations: nat,
                ghost prf: Bytes -> Bytes)
    returns (out: Bytes)
    requires Computes(H, inner, outer, prf) && 1 <= iterations
    ensures out == T(prf, H.digestSize, salt, counter, iterations)
  {
    var m := salt + Int32(counter);
    var ublock, h := FirstU(H, inner, outer, m, prf);
    var result := XorChain(H, inner.h, outer.h, ublock, h, iterations, m, prf);
    out := Extract(result, H.wordSize);
  }

  // ---------------------------------------------------------------- the whole output

  method CopyBlock(out: array<bv8>, offset: nat, block: Bytes)
    requires offset <= out.Length
    modifies out
    ensures out[..] == Patched(old(out[..]), offset, block)
  {
    var taken := Min(out.Length - offset, |block|);
    CopyTo(out, offset, block[..taken]);
  }

  /** The blocks T_1, T_2, ... of the definition. */
  ghost function Blocks(prf: Bytes -> Bytes, n: nat, salt: Bytes, iterations: nat): (b: nat -> Bytes)
    requires IsPrf(prf, n) && 0 < n && 1 <= iterations
    ensures Sized(b, n)
    ensures forall i :: IsBlock(b, prf, n, salt, iterations, i)
  {
    (i: nat) => T(prf, n, salt, i, iterations)
  }

  ghost predicate IsBlock(b: nat -> Bytes, prf: Bytes -> Bytes, n: nat, salt: Bytes, iterations: nat, i: nat)
    requires IsPrf(prf, n) && 1 <= iterations
  {
    b(i) == T(prf, n, salt, i, iterations)
  }

  /** Computes one block and copies it to its place. */
  method WriteBlock(H: Hash, inner: Ctx, outer: Ctx, counter: nat, salt: Bytes, iterations: nat,
                    out: array<bv8>, offset: nat, ghost prf: Bytes -> Bytes, ghost b: nat -> Bytes)
    requires Computes(H, inner, outer, prf) && 1 <= iterations && offset <= out.Length
    requires IsBlock(b, prf, H.digestSize, salt, iterations, counter)
    modifies out
    ensures out[..] == Patched(old(out[..]), offset, b(counter))
  {
    var block := BlockF(H, inner, outer, counter, salt, iterations, prf);
    CopyBlock(out, offset, block);
  }

  /** The block loop: `b` are the blocks of the definition, `offset` advances by one block. */
  method DeriveBlocks(H: Hash, inner: Ctx, outer: Ctx, salt: Bytes, iterations: nat, out: array<bv8>,
                      size: nat, blocks: nat, ghost prf: Bytes -> Bytes, ghost b: nat -> Bytes)
    requires Computes(H, inner, outer, prf) && 1 <= iterations
    requires forall i :: IsBlock(b, prf, H.digestSize, salt, iterations, i)
    requires forall i :: 1 <= i <= blocks ==> StartsInside(i, size, out.Length)
    modifies out
    ensures out[..] == InOrder(b, size, old(out[..]), blocks)
  {
    ghost var start := out[..];
    ghost var made := start;
    var counter := 1;
    while counter <= blocks
      invariant 1 <= counter <= blocks + 1
      invariant out[..] == made == InOrder(b, size, start, counter - 1)
    {
      assert StartsInside(counter, size, |start|);
      var offset := (counter - 1) * size;
      OffsetIsProduct(counter - 1, size);
      InOrderStep(b, size, start, counter, offset);
      WriteBlock(H, inner, outer, counter, salt, iterations, out, offset, prf, b);
      made := InOrder(b, size, start, counter);
      counter := counter + 1;
    }
  }

  /** Fills `out` with the first bytes of T_1 || T_2 || ..., as many as the counted blocks
      have, and leaves the rest as it was. That is all of it if and only if the rounded-up
      length fits 32 bits. */
  method Derive(H: Hash, pw: Bytes, salt: Bytes, iterations: nat, out: array<bv8>)
    requires H.Valid() && 0 < H.digestSize && 1 <= iterations && 1 <= out.Length
    modifies out
    ensures var l := BlocksNeeded(out.Length, H.digestSize);
      var b := Blocks(HmacOf(H, pw), H.digestSize, salt, iterations);
      var k := Min(out.Length, l * H.digestSize);
      && out[..k] == Concat(b, H.digestSize, l)[..k] && out[k..] == old(out[k..])
      && (k == out.Length <==> out.Length + H.digestSize - 1 < 0x1_0000_0000)
  {
    var inner, outer := HmacInit(H, pw);
    ghost var b := Blocks(HmacOf(H, pw), H.digestSize, salt, iterations);
    var size := H.digestSize;
    var blocks := BlocksNeeded(out.Length, size);
    forall i | 1 <= i <= blocks ensures StartsInside(i, size, out.Length) {
      BlockStarts(out.Length, size, i);
      OffsetIsProduct(i - 1, size);
    }
    InOrderPart(b, size, out[..]);
    BlocksCoverIff(out.Length, size);
    ghost var start, k := out[..], Min(out.Length, blocks * size);
    DeriveBlocks(H, inner, outer, salt, iterations, out, size, blocks, HmacOf(H, pw), b);
    assert out[..] == Concat(b, size, blocks)[..k] + start[k..];
  }
}
