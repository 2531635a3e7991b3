/** The chain list of an evbuffer: chunks of memory, each holding some bytes. What an
    operation does to the list is stated on values here; the buffer object then changes its
    list accordingly. */
module EvChains {
  import opened Seqs
  import opened Wire

  /** `off` bytes are stored from `misalign` on. */
  datatype Chain = Chain(buffer: seq<byte>, misalign: nat, off: nat) {
    predicate Fits() { misalign + off <= |buffer| <= MAX_BUFFER }
  }

  const SIZE_MAX: nat := 0xffff_ffff_ffff_ffff
  const CHAIN_MAX: nat := 0x7fff_ffff_ffff_ffff
  const HEADER: nat := 48
  const MIN_BUFFER_SIZE: nat := 1024
  const MAX_AUTO_SIZE: nat := 4096
  const MAX_TO_REALIGN: nat := 2048

  /** No chain has room for more. */
  const MAX_BUFFER: nat := CHAIN_MAX - HEADER

  /** A number cut to a signed one of 32 bits. */
  function Int32(x: int): (r: int)
    ensures -0x8000_0000 <= x <= 0x7fff_ffff ==> r == x
  {
    (x + 0x8000_0000) % 0x1_0000_0000 - 0x8000_0000
  }

  function Data(c: Chain): (r: seq<byte>)
    requires c.Fits()
    ensures |r| == c.off
  {
    c.buffer[c.misalign..c.misalign + c.off]
  }

  predicate AllFit(cs: seq<Chain>) {
    forall i :: 0 <= i < |cs| ==> cs[i].Fits()
  }

  /** The byte string that a list of chains stands for. */
  function Contents(cs: seq<Chain>): seq<byte>
    requires AllFit(cs)
  {
    if cs == [] then [] else Data(cs[0]) + Contents(cs[1..])
  }

  /** w is the place of the last chain with data: everything behind it is empty. If all
      chains are empty it is the first. */
  predicate LastWithData(cs: seq<Chain>, w: nat) {
    if cs == [] then w == 0
    else w < |cs| && (w > 0 ==> cs[w].off > 0) && forall k :: w < k < |cs| ==> cs[k].off == 0
  }

  predicate AllEmpty(cs: seq<Chain>) {
    forall i :: 0 <= i < |cs| ==> cs[i].off == 0
  }

  lemma {:induction false} ContentsAppend(a: seq<Chain>, b: seq<Chain>)
    requires AllFit(a) && AllFit(b)
    ensures Contents(a + b) == Contents(a) + Contents(b)
    decreases |a|
  {
    if a == [] {
      assert a + b == b;
    } else {
      FirstOfBoth(a, b);
      ContentsAppend(a[1..], b);
      Assoc(Data(a[0]), Contents(a[1..]), Contents(b));
    }
  }

  lemma FirstOfBoth(a: seq<Chain>, b: seq<Chain>)
    requires a != []
    ensures (a + b)[0] == a[0] && (a + b)[1..] == a[1..] + b
  {
  }

  lemma ContentsOne(c: Chain)
    requires c.Fits()
    ensures Contents([c]) == Data(c)
  {
    assert [c][1..] == [];
    assert Contents([c]) == Data(c) + [];
  }

  lemma {:induction false} ContentsEmpty(cs: seq<Chain>)
    requires AllFit(cs)
    ensures AllEmpty(cs) <==> Contents(cs) == []
    decreases |cs|
  {
    if cs != [] {
      ContentsEmpty(cs[1..]);
      assert AllEmpty(cs) <==> cs[0].off == 0 && AllEmpty(cs[1..]);
    }
  }

  /** The contents before, in and behind the i-th chain. */
  lemma ContentsAround(cs: seq<Chain>, i: nat)
    requires AllFit(cs) && i < |cs|
    ensures Contents(cs) == Contents(cs[..i]) + (Data(cs[i]) + Contents(cs[i + 1..]))
  {
    ContentsSplit(cs, i);
    ContentsFrom(cs, i);
  }

  lemma ContentsSplit(cs: seq<Chain>, k: nat)
    requires AllFit(cs) && k <= |cs|
    ensures Contents(cs) == Contents(cs[..k]) + Contents(cs[k..])
  {
    assert cs == cs[..k] + cs[k..];
    ContentsAppend(cs[..k], cs[k..]);
  }

  lemma ContentsFrom(cs: seq<Chain>, i: nat)
    requires AllFit(cs) && i < |cs|
    ensures Contents(cs[i..]) == Data(cs[i]) + Contents(cs[i + 1..])
  {
    assert cs[i..][1..] == cs[i + 1..];
  }

  /** Empty chains at the end do not count. */
  lemma ContentsTrim(cs: seq<Chain>, w: nat)
    requires AllFit(cs) && LastWithData(cs, w)
    ensures cs != [] ==> Contents(cs) == Contents(cs[..w]) + Data(cs[w]) == Contents(cs[..w + 1])
  {
    if cs != [] {
      ContentsAround(cs, w);
      ContentsEmpty(cs[w + 1..]);
      assert Data(cs[w]) + [] == Data(cs[w]);
      ContentsAppend(cs[..w], [cs[w]]);
      ContentsOne(cs[w]);
      assert cs[..w] + [cs[w]] == cs[..w + 1];
    }
  }

  /** memcpy into a chunk. */
  function Copied(buffer: seq<byte>, at: nat, data: seq<byte>): (r: seq<byte>)
    requires at + |data| <= |buffer|
    ensures |r| == |buffer| && r[at..at + |data|] == data
    ensures r[..at] == buffer[..at] && r[at + |data|..] == buffer[at + |data|..]
  {
    buffer[..at] + data + buffer[at + |data|..]
  }

  function Filled(c: Chain, data: seq<byte>): (r: Chain)
    requires c.Fits() && c.misalign + c.off + |data| <= |c.buffer|
    ensures r.Fits() && r.off == c.off + |data|
  {
    Chain(Copied(c.buffer, c.misalign + c.off, data), c.misalign, c.off + |data|)
  }

  lemma FilledData(c: Chain, data: seq<byte>)
    requires c.Fits() && c.misalign + c.off + |data| <= |c.buffer|
    ensures Data(Filled(c, data)) == Data(c) + data
  {
    var at := c.misalign + c.off;
    var r := Copied(c.buffer, at, data);
    assert r[c.misalign..at] == r[..at][c.misalign..] == c.buffer[..at][c.misalign..];
    assert r[c.misalign..at + |data|] == r[c.misalign..at] + r[at..at + |data|];
  }

  /** Data in front of what a chunk holds. */
  function FilledFront(c: Chain, data: seq<byte>): (r: Chain)
    requires c.Fits() && |data| <= c.misalign
    ensures r.Fits() && r.off == c.off + |data|
  {
    Chain(Copied(c.buffer, c.misalign - |data|, data), c.misalign - |data|, c.off + |data|)
  }

  lemma FilledFrontData(c: Chain, data: seq<byte>)
    requires c.Fits() && |data| <= c.misalign
    ensures Data(FilledFront(c, data)) == data + Data(c)
  {
    var at := c.misalign - |data|;
    var r := Copied(c.buffer, at, data);
    assert r[c.misalign..c.misalign + c.off] == r[c.misalign..][..c.off] == c.buffer[c.misalign..][..c.off];
    assert r[at..c.misalign + c.off] == r[at..c.misalign] + r[c.misalign..c.misalign + c.off];
  }

  function Aligned(c: Chain): (r: Chain)
    requires c.Fits()
    ensures r.Fits() && r.off == c.off && r.misalign == 0 && |r.buffer| == |c.buffer|
    ensures Data(r) == Data(c)
  {
    Chain(Copied(c.buffer, 0, Data(c)), 0, c.off)
  }

  /** The first n bytes given up. */
  function Dropped(c: Chain, n: nat): (r: Chain)
    requires c.Fits() && n <= c.off
    ensures r.Fits() && r.off == c.off - n && Data(r) == Data(c)[n..]
  {
    c.(misalign := c.misalign + n, off := c.off - n)
  }

  // ---------------------------------------------------------------- whole buffers

  /** The list stands for the bytes s, and everything the buffer records about it is right. */
  ghost predicate Holds(cs: seq<Chain>, w: nat, total: nat, s: seq<byte>) {
    AllFit(cs) && LastWithData(cs, w) && Contents(cs) == s && total == |s|
  }

  /** The last chain with data gets more. */
  lemma FillLast(cs: seq<Chain>, w: nat, total: nat, s: seq<byte>, c: Chain, data: seq<byte>)
    requires Holds(cs, w, total, s) && w < |cs| && c.Fits() && Data(c) == Data(cs[w]) + data
    ensures Holds(cs[w := c], w, total + |data|, s + data)
  {
    var cs' := cs[w := c];
    assert cs'[..w] == cs[..w] && cs'[w + 1..] == cs[w + 1..];
    ContentsTrim(cs, w);
    ContentsTrim(cs', w);
    Assoc(Contents(cs[..w]), Data(cs[w]), data);
  }

  /** Where a new last chain goes once the empty ones are gone. */
  function TrimAt(cs: seq<Chain>, w: nat): (k: nat)
    requires LastWithData(cs, w)
    ensures k <= |cs| && w <= k <= w + 1
  {
    if cs != [] && cs[w].off > 0 then w + 1 else w
  }

  lemma EmptyBehind(cs: seq<Chain>, w: nat)
    requires LastWithData(cs, w)
    ensures AllEmpty(cs[TrimAt(cs, w)..])
  {
  }

  lemma TrimHolds(cs: seq<Chain>, w: nat)
    requires AllFit(cs) && LastWithData(cs, w)
    ensures Contents(cs[..TrimAt(cs, w)]) == Contents(cs)
  {
    var k := TrimAt(cs, w);
    EmptyBehind(cs, w);
    ContentsSplit(cs, k);
    ContentsEmpty(cs[k..]);
  }

  lemma HasData(cs: seq<Chain>, w: nat, total: nat, s: seq<byte>)
    requires Holds(cs, w, total, s) && s != []
    ensures cs != [] && cs[w].off > 0
  {
    ContentsTrim(cs, w);
    assert w == 0 ==> Contents(cs[..0]) == [];
  }

  /** More chains, with data, behind the last one with data. */
  lemma AppendHolds(cs: seq<Chain>, w: nat, total: nat, s: seq<byte>,
                    more: seq<Chain>, w': nat, total': nat, s': seq<byte>)
    requires Holds(cs, w, total, s) && Holds(more, w', total', s') && s' != []
    ensures Holds(cs[..TrimAt(cs, w)] + more, TrimAt(cs, w) + w', total + total', s + s')
  {
    var k := TrimAt(cs, w);
    var all := cs[..k] + more;
    TrimHolds(cs, w);
    ContentsAppend(cs[..k], more);
    HasData(more, w', total', s');
    assert all[k + w'] == more[w'] && all[k + w' + 1..] == more[w' + 1..];
  }

  /** One chain with data in front. */
  lemma PrependHolds(cs: seq<Chain>, w: nat, total: nat, s: seq<byte>,
                     more: seq<Chain>, w': nat, total': nat, s': seq<byte>)
    requires Holds(cs, w, total, s) && Holds(more, w', total', s') && s != []
    ensures Holds(more + cs, |more| + w, total' + total, s' + s)
  {
    var all := more + cs;
    ContentsAppend(more, cs);
    HasData(cs, w, total, s);
    assert all[|more| + w] == cs[w] && all[|more| + w + 1..] == cs[w + 1..];
  }

  /** The first chain gets more in front. */
  lemma FillFirst(cs: seq<Chain>, w: nat, total: nat, s: seq<byte>, c: Chain, data: seq<byte>)
    requires Holds(cs, w, total, s) && cs != [] && c.Fits() && Data(c) == data + Data(cs[0])
    ensures Holds(cs[0 := c], w, total + |data|, data + s)
  {
    var cs' := cs[0 := c];
    assert cs'[1..] == cs[1..];
    assert cs'[w + 1..] == cs[w + 1..];
    Assoc(data, Data(cs[0]), Contents(cs[1..]));
  }

  lemma PrependToEmpty(cs: seq<Chain>, w: nat, c: Chain)
    requires Holds(cs, w, 0, []) && c.Fits()
    ensures Holds([c] + cs, 0, c.off, Data(c))
  {
    ContentsAppend([c], cs);
    ContentsOne(c);
    ContentsEmpty(cs);
    assert ([c] + cs)[1..] == cs;
    assert Data(c) + [] == Data(c);
  }

  lemma OneHolds(c: Chain)
    requires c.Fits()
    ensures Holds([c], 0, c.off, Data(c))
  {
    ContentsOne(c);
    assert [c][1..] == [];
  }

  /** Everything before the n-th byte of the k-th chain given up. */
  lemma DropFront(cs: seq<Chain>, w: nat, total: nat, s: seq<byte>, k: nat, n: nat)
    requires Holds(cs, w, total, s) && k < |cs| && n < cs[k].off
    ensures k <= w && |Contents(cs[..k])| + n <= |s|
    ensures var gone := |Contents(cs[..k])| + n;
      Holds([Dropped(cs[k], n)] + cs[k + 1..], w - k, total - gone, s[gone..])
  {
    ContentsAround(cs, k);
    DropLast(cs, w, k, n);
    var front, d, rest := Contents(cs[..k]), Data(cs[k]), Contents(cs[k + 1..]);
    var cs' := [Dropped(cs[k], n)] + cs[k + 1..];
    assert cs'[1..] == cs[k + 1..];
    DropBytes(front, d, rest, n);
  }

  lemma DropBytes(front: seq<byte>, d: seq<byte>, rest: seq<byte>, n: nat)
    requires n <= |d|
    ensures (front + (d + rest))[|front| + n..] == d[n..] + rest
  {
  }

  lemma DropLast(cs: seq<Chain>, w: nat, k: nat, n: nat)
    requires AllFit(cs) && LastWithData(cs, w) && k < |cs| && n < cs[k].off
    ensures k <= w && LastWithData([Dropped(cs[k], n)] + cs[k + 1..], w - k)
  {
    var cs' := [Dropped(cs[k], n)] + cs[k + 1..];
    assert forall i :: 0 < i < |cs'| ==> cs'[i] == cs[k + i];
  }

  /** One chain further along the list. */
  lemma NextChain(cs: seq<Chain>, k: nat)
    requires AllFit(cs) && k < |cs|
    ensures |Contents(cs[..k + 1])| == |Contents(cs[..k])| + cs[k].off
    ensures |Contents(cs[k..])| == cs[k].off + |Contents(cs[k + 1..])|
    ensures k + 1 == |cs| ==> Contents(cs[k + 1..]) == []
  {
    ContentsAppend(cs[..k], [cs[k]]);
    ContentsOne(cs[k]);
    assert cs[..k] + [cs[k]] == cs[..k + 1];
    assert cs[k..][1..] == cs[k + 1..];
  }

  /** A place in the list: byte `pos` of the whole, byte `posInChain` of a chain. */
  datatype Place = Place(pos: nat, chain: nat, posInChain: nat)

  predicate At(cs: seq<Chain>, p: Place)
    requires AllFit(cs)
  {
    && p.chain <= |cs| && p.pos == |Contents(cs[..p.chain])| + p.posInChain
    && p.posInChain <= (if p.chain < |cs| then cs[p.chain].off else 0)
  }

  const START := Place(0, 0, 0)

  lemma StartAt(cs: seq<Chain>)
    requires AllFit(cs)
    ensures At(cs, START)
  {
    assert cs[..0] == [];
  }

  /** The bytes of the chain from a place on are those of the whole. */
  lemma BytesAt(cs: seq<Chain>, p: Place, n: nat)
    requires AllFit(cs) && At(cs, p) && p.chain < |cs| && p.posInChain + n <= cs[p.chain].off
    ensures p.pos + n <= |Contents(cs)|
    ensures Contents(cs)[p.pos..p.pos + n] == Data(cs[p.chain])[p.posInChain..p.posInChain + n]
  {
    ContentsAround(cs, p.chain);
    var front, d, rest := Contents(cs[..p.chain]), Data(cs[p.chain]), Contents(cs[p.chain + 1..]);
    MiddleBytes(front, d, rest, p.posInChain, n);
  }

  lemma MiddleBytes(front: seq<byte>, d: seq<byte>, rest: seq<byte>, i: nat, n: nat)
    requires i + n <= |d|
    ensures (front + (d + rest))[|front| + i..|front| + i + n] == d[i..i + n]
  {
  }

  /** The start of the next chain. */
  lemma NextAt(cs: seq<Chain>, p: Place)
    requires AllFit(cs) && At(cs, p) && p.chain < |cs|
    ensures At(cs, Place(p.pos + cs[p.chain].off - p.posInChain, p.chain + 1, 0))
  {
    NextChain(cs, p.chain);
  }

  /** A place is within the bytes, and behind the last chain it is at their end. */
  lemma AtBounds(cs: seq<Chain>, p: Place)
    requires AllFit(cs) && At(cs, p)
    ensures p.pos <= |Contents(cs)|
    ensures p.chain == |cs| ==> p.pos == |Contents(cs)|
  {
    ContentsAppend(cs[..p.chain], cs[p.chain..]);
    assert cs == cs[..p.chain] + cs[p.chain..];
    if p.chain < |cs| {
      NextChain(cs, p.chain);
    }
  }

  // ---------------------------------------------------------------- pulling up

  /** The first `size` bytes gathered in one chain c, the rest of the list from the n-th byte
      of the k-th chain on behind it; with k == |cs| nothing is left. */
  lemma PullHolds(cs: seq<Chain>, w: nat, total: nat, s: seq<byte>, c: Chain, k: nat, n: nat)
    requires Holds(cs, w, total, s) && 0 < k < |cs| && n < cs[k].off && c.Fits() && c.off > 0
    requires |Contents(cs[..k])| + n == c.off && c.off <= |s| && Data(c) == s[..c.off]
    ensures k <= w
    ensures Holds([c] + ([Dropped(cs[k], n)] + cs[k + 1..]), w - k + 1, total, s)
  {
    DropFront(cs, w, total, s, k, n);
    var rest := [Dropped(cs[k], n)] + cs[k + 1..];
    OneHolds(c);
    assert s[c.off..] != [] by {
      ContentsAround(cs, k);
    }
    PrependHolds(rest, w - k, total - c.off, s[c.off..], [c], 0, c.off, Data(c));
    assert s[..c.off] + s[c.off..] == s;
  }

  lemma PullAll(cs: seq<Chain>, w: nat, total: nat, s: seq<byte>, c: Chain)
    requires Holds(cs, w, total, s) && c.Fits() && Data(c) == s
    ensures Holds([c], 0, total, s)
  {
    OneHolds(c);
  }

  /** The k-th chain taken whole extends what has been gathered. */
  lemma Gather(cs: seq<Chain>, s: seq<byte>, k: nat, got: seq<byte>)
    requires AllFit(cs) && Contents(cs) == s && k < |cs| && |got| <= |s| && got == s[..|got|]
    requires |got| == |Contents(cs[..k])|
    ensures |got| + cs[k].off <= |s| && got + Data(cs[k]) == s[..|got| + cs[k].off]
    ensures |Contents(cs[..k + 1])| == |got| + cs[k].off
  {
    NextChain(cs, k);
    ContentsAround(cs, k);
    var d, rest := Data(cs[k]), Contents(cs[k + 1..]);
    assert s == Contents(cs[..k]) + (d + rest);
    assert got == Contents(cs[..k]);
    Assoc(got, d, rest);
    assert (got + d + rest)[..|got + d|] == got + d;
  }

  /** Part of the k-th chain does the same. */
  lemma GatherPart(cs: seq<Chain>, s: seq<byte>, k: nat, got: seq<byte>, n: nat)
    requires AllFit(cs) && Contents(cs) == s && k < |cs| && |got| <= |s| && got == s[..|got|]
    requires |got| == |Contents(cs[..k])| && n <= cs[k].off
    ensures |got| + n <= |s| && got + Data(cs[k])[..n] == s[..|got| + n]
  {
    Gather(cs, s, k, got);
    assert s[..|got| + n] == s[..|got| + cs[k].off][..|got| + n];
  }

  lemma FirstBytes(cs: seq<Chain>, n: nat)
    requires AllFit(cs) && cs != [] && n <= cs[0].off
    ensures n <= |Contents(cs)| && Data(cs[0])[..n] == Contents(cs)[..n]
  {
  }

  lemma AllChains(cs: seq<Chain>, k: nat)
    requires AllFit(cs) && k == |cs|
    ensures Contents(cs[..k]) == Contents(cs)
  {
    assert cs[..k] == cs;
  }

  lemma BeyondFirst(cs: seq<Chain>, w: nat, total: nat, s: seq<byte>)
    requires Holds(cs, w, total, s) && cs != [] && cs[0].off < |s|
    ensures w > 0
  {
    ContentsTrim(cs, w);
    assert cs[..0] == [];
  }

  // ---------------------------------------------------------------- searching

  predicate Occurs(s: seq<byte>, what: seq<byte>, p: nat) {
    p + |what| <= |s| && s[p..p + |what|] == what
  }

  /** A match of `done` bytes goes on for n more exactly when those agree. */
  lemma MatchFurther(s: seq<byte>, what: seq<byte>, p: nat, done: nat, n: nat)
    requires done + n <= |what| && p + |what| <= |s| && s[p..p + done] == what[..done]
    ensures s[p + done..p + done + n] == what[done..done + n] ==> s[p..p + done + n] == what[..done + n]
    ensures s[p + done..p + done + n] != what[done..done + n] ==> !Occurs(s, what, p)
  {
    assert s[p..p + done + n] == s[p..p + done] + s[p + done..p + done + n];
    assert what[..done + n] == what[..done] + what[done..done + n];
    SliceOfSlice(s, p, |what|, done, n);
  }

  lemma SliceOfSlice(s: seq<byte>, p: nat, m: nat, i: nat, n: nat)
    requires p + m <= |s| && i + n <= m
    ensures s[p..p + m][i..i + n] == s[p + i..p + i + n]
  {
    var a, b := s[p..p + m][i..i + n], s[p + i..p + i + n];
    assert |a| == |b| == n;
    assert forall k :: 0 <= k < n ==> a[k] == b[k];
  }

  /** No occurrence begins in a range. */
  ghost predicate NoneIn(s: seq<byte>, what: seq<byte>, lo: nat, hi: int) {
    forall p :: lo <= p < hi ==> !Occurs(s, what, p)
  }

  lemma OccursFirst(s: seq<byte>, what: seq<byte>, p: nat)
    requires what != []
    ensures Occurs(s, what, p) ==> p < |s| && s[p] == what[0]
  {
    if Occurs(s, what, p) {
      assert s[p..p + |what|][0] == s[p];
    }
  }

  lemma NoneWithout(s: seq<byte>, what: seq<byte>, lo: nat, mid: nat, hi: nat)
    requires what != [] && lo <= mid <= hi <= |s| && NoneIn(s, what, lo, mid)
    requires forall q :: mid <= q < hi ==> s[q] != what[0]
    ensures NoneIn(s, what, lo, hi)
  {
    forall q | mid <= q < hi ensures !Occurs(s, what, q) {
      OccursFirst(s, what, q);
    }
  }

  /** A slice goes on where the next one begins. */
  lemma Joined(s: seq<byte>, lo: nat, mid: nat, hi: nat)
    requires lo <= mid <= hi <= |s|
    ensures s[lo..hi] == s[lo..mid] + s[mid..hi]
  {
  }

  /** What stands at pos in s is the beginning of d, none of whose first n bytes can begin an
      occurrence. */
  lemma SkipSame(s: seq<byte>, pos: nat, d: seq<byte>, what: seq<byte>, n: nat, lo: nat)
    requires pos + n <= |s| && n <= |d| && s[pos..pos + n] == d[..n]
    requires what != [] && forall j :: 0 <= j < n ==> d[j] != what[0]
    requires lo <= pos && NoneIn(s, what, lo, pos)
    ensures NoneIn(s, what, lo, pos + n)
  {
    SameBytes(s, pos, d, n, what[0]);
    NoneWithout(s, what, lo, pos, pos + n);
  }

  /** Bytes of a chain that are not the first of what is searched for. */
  lemma SkipBytes(cs: seq<Chain>, p: Place, d: seq<byte>, what: seq<byte>, n: nat, lo: nat)
    requires AllFit(cs) && At(cs, p) && p.chain < |cs| && d == Data(cs[p.chain])[p.posInChain..]
    requires n <= |d| && what != [] && forall j :: 0 <= j < n ==> d[j] != what[0]
    requires lo <= p.pos && NoneIn(Contents(cs), what, lo, p.pos)
    ensures NoneIn(Contents(cs), what, lo, p.pos + n)
  {
    ChainBytesAt(cs, p, d, n);
    SkipSame(Contents(cs), p.pos, d, what, n, lo);
  }

  lemma ChainBytesAt(cs: seq<Chain>, p: Place, d: seq<byte>, n: nat)
    requires AllFit(cs) && At(cs, p) && p.chain < |cs| && d == Data(cs[p.chain])[p.posInChain..] && n <= |d|
    ensures p.pos + n <= |Contents(cs)| && Contents(cs)[p.pos..p.pos + n] == d[..n]
  {
    BytesAt(cs, p, n);
    var whole := Data(cs[p.chain]);
    assert whole[p.posInChain..][..n] == whole[p.posInChain..p.posInChain + n];
  }

  lemma SameBytes(s: seq<byte>, p: nat, d: seq<byte>, n: nat, b: byte)
    requires p + n <= |s| && n <= |d| && s[p..p + n] == d[..n]
    requires forall j :: 0 <= j < n ==> d[j] != b
    ensures forall q :: p <= q < p + n ==> s[q] != b
  {
    forall q | p <= q < p + n ensures s[q] != b {
      assert s[q] == s[p..p + n][q - p] == d[..n][q - p];
    }
  }
}
