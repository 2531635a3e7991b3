/** An evbuffer: a chain list changed in place. Each operation matches the operation on the
    plain byte string. */
module EvBuffers {
  import opened Options
  import opened Seqs
  import opened Wire
  import opened EvChains

  class EvBuffer {
    var chains: seq<Chain>
    var lastWithData: nat
    var totalLen: nat
    var freezeStart: bool
    var freezeEnd: bool

    ghost predicate Valid()
      reads this
    {
      AllFit(chains) && Holds(chains, lastWithData, totalLen, Contents(chains)) && totalLen <= SIZE_MAX
    }

    ghost function Bytes(): seq<byte>
      requires Valid()
      reads this
    {
      Contents(chains)
    }

    constructor ()
      ensures Valid() && Bytes() == [] && !freezeStart && !freezeEnd
    {
      chains, lastWithData, totalLen := [], 0, 0;
      freezeStart, freezeEnd := false, false;
    }

    // -------------------------------------------------------------- chains

    /** A chunk with room for `size` bytes. */
    static method ChainNew(size: nat) returns (r: Option<Chain>)
      ensures r.None? <==> size > MAX_BUFFER
      ensures r.Some? ==>
        r.value.Fits() && r.value.misalign == 0 && r.value.off == 0 && |r.value.buffer| >= size
    {
      if size > CHAIN_MAX - HEADER {
        return None;
      }
      var need := size + HEADER;
      var toAlloc := need;
      if need < CHAIN_MAX / 2 {
        toAlloc := MIN_BUFFER_SIZE;
        while toAlloc < need
          invariant 0 < toAlloc && HEADER <= toAlloc <= CHAIN_MAX
          decreases need - toAlloc
        {
          toAlloc := toAlloc * 2;
        }
      }
      r := Some(Chain(seq(toAlloc - HEADER, _ => 0), 0, 0));
    }

    /** Drops the empty chains at the end. */
    method FreeTrailingEmptyChains() returns (ch: nat)
      requires AllFit(chains) && LastWithData(chains, lastWithData)
      modifies this`chains
      ensures ch == TrimAt(old(chains), lastWithData) && chains == old(chains)[..ch]
      ensures AllEmpty(old(chains)[ch..])
    {
      ch := lastWithData;
      while ch < |chains| && chains[ch].off != 0
        invariant lastWithData <= ch <= |chains|
        invariant ch > lastWithData ==> ch == lastWithData + 1 && chains[lastWithData].off != 0
      {
        ch := ch + 1;
      }
      chains := chains[..ch];
    }

    /** A chain with data goes behind the last one with data. */
    method ChainInsert(c: Chain, ghost s: seq<byte>)
      requires Holds(chains, lastWithData, totalLen, s) && c.Fits() && c.off > 0
      modifies this`chains, this`lastWithData, this`totalLen
      ensures Holds(chains, lastWithData, totalLen, s + Data(c))
    {
      OneHolds(c);
      AppendHolds(chains, lastWithData, totalLen, s, [c], 0, c.off, Data(c));
      var ch := FreeTrailingEmptyChains();
      chains := chains + [c];
      lastWithData := ch;
      totalLen := totalLen + c.off;
    }

    // -------------------------------------------------------------- add

    static predicate ShouldRealign(c: Chain, datlen: nat)
      requires c.Fits()
    {
      |c.buffer| - c.off >= datlen && c.off < |c.buffer| / 2 && c.off <= MAX_TO_REALIGN
    }

    /** Adds to the last chain with data, or as much as fits and a new chain for the rest. */
    method AddBehind(data: seq<byte>, ghost s: seq<byte>) returns (result: int)
      requires Holds(chains, lastWithData, totalLen, s) && chains != []
      modifies this`chains, this`lastWithData, this`totalLen
      ensures result == if |data| > MAX_BUFFER then -1 else 0
      ensures Holds(chains, lastWithData, totalLen, if result == 0 then s + data else s)
    {
      var c := chains[lastWithData];
      var remain := |c.buffer| - c.misalign - c.off;
      if remain >= |data| {
        FilledData(c, data);
        FillLast(chains, lastWithData, totalLen, s, Filled(c, data), data);
        chains := chains[lastWithData := Filled(c, data)];
        totalLen := totalLen + |data|;
        return 0;
      }
      if ShouldRealign(c, |data|) {
        FilledData(Aligned(c), data);
        FillLast(chains, lastWithData, totalLen, s, Filled(Aligned(c), data), data);
        chains := chains[lastWithData := Filled(Aligned(c), data)];
        totalLen := totalLen + |data|;
        return 0;
      }
      result := AddSplit(data, remain, s);
    }

    method AddSplit(data: seq<byte>, remain: nat, ghost s: seq<byte>) returns (result: int)
      requires Holds(chains, lastWithData, totalLen, s) && chains != [] && remain < |data|
      requires var c := chains[lastWithData]; remain == |c.buffer| - c.misalign - c.off
      modifies this`chains, this`lastWithData, this`totalLen
      ensures result == if |data| > MAX_BUFFER then -1 else 0
      ensures Holds(chains, lastWithData, totalLen, if result == 0 then s + data else s)
    {
      var c := chains[lastWithData];
      var toAlloc := |c.buffer|;
      if toAlloc <= MAX_AUTO_SIZE / 2 {
        toAlloc := toAlloc * 2;
      }
      if |data| > toAlloc {
        toAlloc := |data|;
      }
      var tmp := ChainNew(toAlloc);
      if tmp.None? {
        return -1;
      }
      var front, back := data[..remain], data[remain..];
      FilledData(c, front);
      FillLast(chains, lastWithData, totalLen, s, Filled(c, front), front);
      chains := chains[lastWithData := Filled(c, front)];
      totalLen := totalLen + remain;
      InsertFilled(tmp.value, back, s + front);
      assert front + back == data;
      Assoc(s, front, back);
      result := 0;
    }

    /** A new chain with the data goes behind the last one. */
    method InsertFilled(c: Chain, data: seq<byte>, ghost s: seq<byte>)
      requires Holds(chains, lastWithData, totalLen, s) && data != []
      requires c.Fits() && c.misalign == 0 && c.off == 0 && |data| <= |c.buffer|
      modifies this`chains, this`lastWithData, this`totalLen
      ensures Holds(chains, lastWithData, totalLen, s + data)
    {
      FilledData(c, data);
      assert Data(c) + data == data;
      ChainInsert(Filled(c, data), s);
    }

    /** evbuffer_add. */
    method Add(data: seq<byte>) returns (result: int)
      requires Valid()
      modifies this`chains, this`lastWithData, this`totalLen
      ensures Valid()
      ensures result ==
        if freezeEnd || |data| > SIZE_MAX - old(totalLen) || |data| > MAX_BUFFER then -1 else 0
      ensures Bytes() == if result == 0 then old(Bytes()) + data else old(Bytes())
    {
      if freezeEnd || |data| > SIZE_MAX - totalLen {
        return -1;
      }
      ghost var s := Bytes();
      if chains == [] {
        var c := ChainNew(|data|);
        if c.None? {
          return -1;
        }
        OneHolds(c.value);
        chains, lastWithData := [c.value], 0;
      }
      result := AddBehind(data, s);
    }

    // -------------------------------------------------------------- prepend

    /** A new first chain that ends with the data. */
    method PrependNew(data: seq<byte>, ghost s: seq<byte>) returns (result: int)
      requires Holds(chains, lastWithData, totalLen, s) && chains != [] && data != []
      modifies this`chains, this`lastWithData, this`totalLen
      ensures result == if |data| > MAX_BUFFER then -1 else 0
      ensures Holds(chains, lastWithData, totalLen, if result == 0 then data + s else s)
    {
      var tmp := ChainNew(|data|);
      if tmp.None? {
        return -1;
      }
      var empty := tmp.value.(misalign := |tmp.value.buffer|);
      var c := FilledFront(empty, data);
      FilledFrontData(empty, data);
      assert data + Data(empty) == data;
      OneHolds(c);
      if s == [] {
        ContentsEmpty(chains);
        PrependToEmpty(chains, lastWithData, c);
        assert data + s == data;
      } else {
        HasData(chains, lastWithData, totalLen, s);
        PrependHolds(chains, lastWithData, totalLen, s, [c], 0, c.off, data);
      }
      if lastWithData > 0 || chains[0].off > 0 {
        lastWithData := lastWithData + 1;
      }
      chains := [c] + chains;
      totalLen := totalLen + |data|;
      result := 0;
    }

    /** How much of n bytes does not fit in front of the first chain. A first chain that has
        yet to be made has room for all, if it can be made. */
    static function Overhang(cs: seq<Chain>, n: nat): (r: nat)
      ensures r <= n
    {
      if cs == [] then (if n > MAX_BUFFER then n else 0)
      else
        var room := if cs[0].off == 0 then |cs[0].buffer| else cs[0].misalign;
        if room >= n then 0 else n - room
    }

    /** As much as fits goes in front of the first chain; `rest` is how much does not. */
    method PrependInFront(data: seq<byte>, ghost s: seq<byte>) returns (rest: nat)
      requires Holds(chains, lastWithData, totalLen, s) && chains != []
      modifies this`chains, this`totalLen
      ensures rest == Overhang(old(chains), |data|) && chains != []
      ensures Holds(chains, lastWithData, totalLen, data[rest..] + s)
    {
      var c := chains[0];
      if c.off == 0 {
        c := c.(misalign := |c.buffer|);
      }
      assert Data(c) == Data(chains[0]);
      if c.misalign >= |data| {
        rest := 0;
      } else {
        rest := |data| - c.misalign;
      }
      FilledFrontData(c, data[rest..]);
      FillFirst(chains, lastWithData, totalLen, s, FilledFront(c, data[rest..]), data[rest..]);
      chains := chains[0 := FilledFront(c, data[rest..])];
      totalLen := totalLen + (|data| - rest);
    }

    /** evbuffer_prepend. If the chain for what does not fit cannot be had, the end of the
        data is already in the buffer. */
    method Prepend(data: seq<byte>) returns (result: int)
      requires Valid()
      modifies this`chains, this`lastWithData, this`totalLen
      ensures Valid() && (result == 0 || result == -1)
      ensures var refused := freezeStart || |data| > SIZE_MAX - old(totalLen);
        var over := Overhang(old(chains), |data|);
        && (result == -1 <==> data != [] && (refused || over > MAX_BUFFER))
        && Bytes() == (if result == 0 then data else if refused then [] else data[over..]) + old(Bytes())
    {
      ghost var s := Bytes();
      assert [] + s == s;
      if data == [] {
        return 0;
      }
      if freezeStart || |data| > SIZE_MAX - totalLen {
        return -1;
      }
      if chains == [] {
        var c := ChainNew(|data|);
        if c.None? {
          return -1;
        }
        OneHolds(c.value);
        chains, lastWithData := [c.value], 0;
      }
      result := PrependTo(data, s);
    }

    method PrependTo(data: seq<byte>, ghost s: seq<byte>) returns (result: int)
      requires Holds(chains, lastWithData, totalLen, s) && chains != []
      modifies this`chains, this`lastWithData, this`totalLen
      ensures var over := Overhang(old(chains), |data|);
        && result == (if over > MAX_BUFFER then -1 else 0)
        && Holds(chains, lastWithData, totalLen, (if result == 0 then data else data[over..]) + s)
    {
      var left := PrependInFront(data, s);
      result := PrependRest(data, left, s);
    }

    /** What did not fit in front of the first chain gets a chain of its own. */
    method PrependRest(data: seq<byte>, left: nat, ghost s: seq<byte>) returns (result: int)
      requires left <= |data| && Holds(chains, lastWithData, totalLen, data[left..] + s) && chains != []
      modifies this`chains, this`lastWithData, this`totalLen
      ensures result == if left > MAX_BUFFER then -1 else 0
      ensures Holds(chains, lastWithData, totalLen, (if result == 0 then data else data[left..]) + s)
    {
      result := 0;
      if left > 0 {
        Rejoin(data, left, s);
        result := PrependNew(data[..left], data[left..] + s);
      } else {
        assert data[0..] == data;
      }
    }

    // -------------------------------------------------------------- drain

    /** Passes whole chains until the rest of `len` bytes is in one of them. `w` is the place
        of the last chain with data, the start of the list once that would be freed. */
    static method PassChains(cs: seq<Chain>, len: nat, last: nat) returns (k: nat, remaining: nat, w: nat)
      requires AllFit(cs) && len < |Contents(cs)|
      ensures k < |cs| && remaining < cs[k].off && |Contents(cs[..k])| + remaining == len
      ensures w == if 0 < k && last <= k then 0 else last
    {
      k, remaining, w := 0, len, last;
      assert cs[..0] == [] && cs[0..] == cs;
      while remaining >= cs[k].off
        invariant 0 <= k < |cs|
        invariant |Contents(cs[..k])| + remaining == len
        invariant remaining < |Contents(cs[k..])|
        invariant w == if 0 < k && last <= k then 0 else last
        decreases |cs| - k
      {
        NextChain(cs, k);
        remaining := remaining - cs[k].off;
        if w == k || w == k + 1 {
          w := 0;
        }
        k := k + 1;
      }
    }

    method DrainSome(len: nat, ghost s: seq<byte>)
      requires Holds(chains, lastWithData, totalLen, s) && len < |s|
      modifies this`chains, this`lastWithData, this`totalLen
      ensures Holds(chains, lastWithData, totalLen, s[len..])
    {
      var k, remaining, w := PassChains(chains, len, lastWithData);
      DropFront(chains, lastWithData, totalLen, s, k, remaining);
      chains := [Dropped(chains[k], remaining)] + chains[k + 1..];
      lastWithData := if w == 0 then 0 else w - k;
      totalLen := totalLen - len;
    }

    /** evbuffer_drain. */
    method Drain(len: nat) returns (result: int)
      requires Valid()
      modifies this`chains, this`lastWithData, this`totalLen
      ensures Valid()
      ensures result == if old(Bytes()) != [] && freezeStart then -1 else 0
      ensures Bytes() ==
        if result == -1 then old(Bytes()) else if len < |old(Bytes())| then old(Bytes())[len..] else []
    {
      result := 0;
      if totalLen == 0 {
        return;
      }
      if freezeStart {
        return -1;
      }
      if len >= totalLen {
        chains, lastWithData, totalLen := [], 0, 0;
      } else {
        DrainSome(len, Bytes());
      }
    }

    // -------------------------------------------------------------- copy out

    static method Memcpy(out: array<byte>, at: nat, src: seq<byte>)
      requires at + |src| <= out.Length
      modifies out
      ensures out[..at] == old(out[..at]) && out[at..at + |src|] == src
      ensures out[at + |src|..] == old(out[at + |src|..])
    {
      forall i | 0 <= i < |src| {
        out[at + i] := src[i];
      }
    }

    /** Copies n bytes of one chain behind what has been copied already. */
    static method CopyPart(cs: seq<Chain>, ghost start: nat, p: Place, out: array<byte>, at: nat, n: nat)
      requires AllFit(cs) && At(cs, p) && p.chain < |cs| && p.posInChain + n <= cs[p.chain].off
      requires at + n <= out.Length && p.pos == start + at <= |Contents(cs)|
      requires out[..at] == Contents(cs)[start..start + at]
      modifies out
      ensures start + at + n <= |Contents(cs)| && out[..at + n] == Contents(cs)[start..start + at + n]
      ensures out[at + n..] == old(out[at + n..])
    {
      BytesAt(cs, p, n);
      ghost var all := Contents(cs);
      Memcpy(out, at, Data(cs[p.chain])[p.posInChain..p.posInChain + n]);
      Joined(out[..], 0, at, at + n);
      assert out[..][0..at] == out[..at] && out[..][at..at + n] == out[at..at + n];
      assert out[..][0..at + n] == out[..at + n];
      Joined(all, start, start + at, start + at + n);
    }

    /** Copies the rest of a chain and goes on to the next. */
    static method CopyRest(cs: seq<Chain>, ghost start: nat, p: Place, out: array<byte>, at: nat, ghost n: nat)
      returns (p': Place, at': nat)
      requires AllFit(cs) && At(cs, p) && p.chain < |cs| && p.pos == start + at && start + n <= |Contents(cs)|
      requires at + (cs[p.chain].off - p.posInChain) <= n <= out.Length
      requires p.pos <= |Contents(cs)| && out[..at] == Contents(cs)[start..start + at]
      modifies out
      ensures at' == at + (cs[p.chain].off - p.posInChain) && At(cs, p') && p'.pos == start + at' <= |Contents(cs)|
      ensures p'.chain == p.chain + 1 && (at' < n ==> p'.chain < |cs|)
      ensures out[..at'] == Contents(cs)[start..start + at'] && out[n..] == old(out[n..])
    {
      var copylen := cs[p.chain].off - p.posInChain;
      ghost var before := out[at + copylen..];
      CopyPart(cs, start, p, out, at, copylen);
      KeepsTail(before, out[at + copylen..], n - at - copylen);
      NextAt(cs, p);
      p', at' := Place(p.pos + copylen, p.chain + 1, 0), at + copylen;
      AtBounds(cs, p');
    }

    /** Copies n bytes from a place on: whole chains, then part of one. */
    static method CopyChains(cs: seq<Chain>, from: Place, out: array<byte>, n: nat)
      requires AllFit(cs) && At(cs, from) && from.pos + n <= |Contents(cs)| && n <= out.Length
      modifies out
      ensures out[..n] == Contents(cs)[from.pos..from.pos + n] && out[n..] == old(out[n..])
    {
      var p, at := CopyWhole(cs, from, out, n);
      if at < n {
        CopyPart(cs, from.pos, p, out, at, n - at);
      }
    }

    /** Chains as long as they are copied to their end. */
    static method CopyWhole(cs: seq<Chain>, from: Place, out: array<byte>, n: nat) returns (p: Place, at: nat)
      requires AllFit(cs) && At(cs, from) && from.pos + n <= |Contents(cs)| && n <= out.Length
      modifies out
      ensures at <= n && At(cs, p) && p.pos == from.pos + at
      ensures at < n ==> p.chain < |cs| && n - at < cs[p.chain].off - p.posInChain
      ensures out[..at] == Contents(cs)[from.pos..from.pos + at] && out[n..] == old(out[n..])
    {
      p, at := from, 0;
      AtBounds(cs, p);
      while at < n && n - at >= cs[p.chain].off - p.posInChain
        invariant 0 <= at <= n && At(cs, p) && p.pos == from.pos + at
        invariant at < n ==> p.chain < |cs|
        invariant out[..at] == Contents(cs)[from.pos..from.pos + at] && out[n..] == old(out[n..])
        decreases |cs| - p.chain
      {
        p, at := CopyRest(cs, from.pos, p, out, at, n);
      }
    }

    /** evbuffer_copyout_from; without a place, from the start. The copy is cut to what the
        buffer holds. */
    method CopyoutFrom(pos: Option<Place>, out: array<byte>, datlen: nat) returns (result: int)
      requires Valid() && datlen <= out.Length && (pos.Some? ==> At(chains, pos.value))
      modifies out
      ensures var p := if pos.Some? then pos.value.pos else 0;
        var n := if p + datlen > |Bytes()| then |Bytes()| - p else datlen;
        && p <= |Bytes()|
        && result == (if pos.Some? && datlen > CHAIN_MAX - p then -1
                      else if n > 0 && freezeStart then -1 else n)
        && (result == -1 ==> out[..] == old(out[..]))
        && (result >= 0 ==> out[..n] == Bytes()[p..p + n] && out[n..] == old(out[n..]))
    {
      var p, n := START, datlen;
      StartAt(chains);
      if pos.Some? {
        p := pos.value;
        AtBounds(chains, p);
        if datlen > CHAIN_MAX - p.pos {
          return -1;
        }
      }
      if p.pos + n > totalLen {
        n := totalLen - p.pos;
      }
      if n == 0 {
        return 0;
      }
      if freezeStart {
        return -1;
      }
      CopyChains(chains, p, out, n);
      result := n;
    }

    /** evbuffer_copyout. */
    method CopyFront(out: array<byte>, datlen: nat) returns (n: int)
      requires Valid() && datlen <= out.Length
      modifies out
      ensures var k := if datlen < |Bytes()| then datlen else |Bytes()|;
        && n == (if k > 0 && freezeStart then -1 else k)
        && (n >= 0 ==> out[..k] == Bytes()[..k] && out[k..] == old(out[k..]))
    {
      n := CopyoutFrom(None, out, datlen);
    }

    /** evbuffer_remove: copy out, then drain. The result is cut to 32 bits. */
    method Remove(out: array<byte>, datlen: nat) returns (n: int)
      requires Valid() && datlen <= out.Length
      modifies this`chains, this`lastWithData, this`totalLen, out
      ensures Valid()
      ensures var k := if datlen < |old(Bytes())| then datlen else |old(Bytes())|;
        && n == (if k > 0 && freezeStart then -1 else Int32(k))
        && Bytes() == (if k > 0 && freezeStart then old(Bytes()) else old(Bytes())[k..])
        && ((k > 0 && freezeStart) || (out[..k] == old(Bytes())[..k] && out[k..] == old(out[k..])))
    {
      n := CopyFront(out, datlen);
      if n > 0 {
        var r := Drain(n);
        if r < 0 {
          n := -1;
        }
      }
      n := Int32(n);
    }

    // -------------------------------------------------------------- buffers into buffers

    /** evbuffer_add_buffer: the chains of the other buffer move behind this one's. The sum of
        the lengths is that of bytes in memory. */
    method AddBuffer(inbuf: EvBuffer) returns (result: int)
      requires Valid() && inbuf.Valid() && totalLen + inbuf.totalLen <= SIZE_MAX
      modifies this, inbuf
      ensures Valid() && inbuf.Valid()
      ensures result == if inbuf != this && old(inbuf.Bytes()) != [] && old(freezeEnd || inbuf.freezeStart)
                        then -1 else 0
      ensures inbuf == this || result == -1 ==> Bytes() == old(Bytes()) && inbuf.Bytes() == old(inbuf.Bytes())
      ensures inbuf != this && result == 0 ==> Bytes() == old(Bytes()) + old(inbuf.Bytes()) && inbuf.Bytes() == []
    {
      result := 0;
      if inbuf.totalLen == 0 || inbuf == this {
        return;
      }
      if freezeEnd || inbuf.freezeStart {
        return -1;
      }
      ghost var s, s' := Bytes(), inbuf.Bytes();
      if totalLen == 0 {
        assert [] + s' == s';
        chains, lastWithData, totalLen := inbuf.chains, inbuf.lastWithData, inbuf.totalLen;
      } else {
        AppendHolds(chains, lastWithData, totalLen, s,
                    inbuf.chains, inbuf.lastWithData, inbuf.totalLen, s');
        var chp := FreeTrailingEmptyChains();
        chains := chains + inbuf.chains;
        lastWithData := chp + inbuf.lastWithData;
        totalLen := totalLen + inbuf.totalLen;
      }
      inbuf.chains, inbuf.lastWithData, inbuf.totalLen := [], 0, 0;
    }

    /** evbuffer_prepend_buffer. */
    method PrependBuffer(inbuf: EvBuffer) returns (result: int)
      requires Valid() && inbuf.Valid() && totalLen + inbuf.totalLen <= SIZE_MAX
      modifies this, inbuf
      ensures Valid() && inbuf.Valid()
      ensures result == if inbuf != this && old(inbuf.Bytes()) != [] && old(freezeStart || inbuf.freezeStart)
                        then -1 else 0
      ensures inbuf == this || result == -1 ==> Bytes() == old(Bytes()) && inbuf.Bytes() == old(inbuf.Bytes())
      ensures inbuf != this && result == 0 ==> Bytes() == old(inbuf.Bytes()) + old(Bytes()) && inbuf.Bytes() == []
    {
      result := 0;
      if inbuf.totalLen == 0 || inbuf == this {
        return;
      }
      if freezeStart || inbuf.freezeStart {
        return -1;
      }
      ghost var s, s' := Bytes(), inbuf.Bytes();
      if totalLen == 0 {
        assert s' + [] == s';
        chains, lastWithData, totalLen := inbuf.chains, inbuf.lastWithData, inbuf.totalLen;
      } else {
        PrependHolds(chains, lastWithData, totalLen, s,
                     inbuf.chains, inbuf.lastWithData, inbuf.totalLen, s');
        chains := inbuf.chains + chains;
        lastWithData := |inbuf.chains| + lastWithData;
        totalLen := totalLen + inbuf.totalLen;
      }
      inbuf.chains, inbuf.lastWithData, inbuf.totalLen := [], 0, 0;
    }

    // -------------------------------------------------------------- pull up

    /** Copies whole chains from the c-th on behind what `tmp` holds, until `size` bytes are
        reached. `gone` tells whether the last chain with data, `gonep` whether the link to it
        was among them. */
    static method GatherChains(cs: seq<Chain>, tmp: Chain, first: nat, size: nat, w: nat, ghost s: seq<byte>)
      returns (tmp': Chain, k: nat, gone: bool, gonep: bool)
      requires AllFit(cs) && Contents(cs) == s && first <= |cs| && tmp.Fits() && size <= |s|
      requires tmp.off == |Contents(cs[..first])| <= size && Data(tmp) == s[..tmp.off]
      requires tmp.misalign + size <= |tmp.buffer|
      ensures first <= k <= |cs| && tmp'.Fits() && tmp'.misalign == tmp.misalign && |tmp'.buffer| == |tmp.buffer|
      ensures tmp'.off == |Contents(cs[..k])| <= size && Data(tmp') == s[..tmp'.off]
      ensures k < |cs| ==> size - tmp'.off < cs[k].off
      ensures gone == (first <= w < k) && gonep == (first < w <= k)
    {
      tmp', k, gone, gonep := tmp, first, false, false;
      while k < |cs| && size - tmp'.off >= cs[k].off
        invariant first <= k <= |cs| && tmp'.Fits() && tmp'.misalign == tmp.misalign && |tmp'.buffer| == |tmp.buffer|
        invariant tmp'.off == |Contents(cs[..k])| <= size && Data(tmp') == s[..tmp'.off]
        invariant gone == (first <= w < k) && gonep == (first < w <= k)
        decreases |cs| - k
      {
        Gather(cs, s, k, Data(tmp'));
        FilledData(tmp', Data(cs[k]));
        tmp' := Filled(tmp', Data(cs[k]));
        if k == w {
          gone := true;
        }
        if k + 1 == w {
          gonep := true;
        }
        k := k + 1;
      }
    }

    /** The list with c, filled up to n bytes from the k-th chain, in place of the chains
        before. */
    static method Assemble(cs: seq<Chain>, gathered: Chain, k: nat, n: nat,
                           ghost w: nat, ghost total: nat, ghost s: seq<byte>)
      returns (cs': seq<Chain>)
      requires Holds(cs, w, total, s) && 0 < k <= |cs| && gathered.Fits() && gathered.misalign + n <= |gathered.buffer|
      requires gathered.off == |Contents(cs[..k])| <= n <= |s| && 0 < n && Data(gathered) == s[..gathered.off]
      requires k < |cs| ==> n - gathered.off < cs[k].off
      ensures k < |cs| ==> k <= w && Holds(cs', w - k + 1, total, s) && |cs'| > 1 && cs'[1].off > 0
      ensures k == |cs| ==> Holds(cs', 0, total, s)
      ensures cs' != [] && cs'[0].off == n
    {
      var c := gathered;
      if k < |cs| {
        var part := n - c.off;
        GatherPart(cs, s, k, Data(c), part);
        FilledData(c, Data(cs[k])[..part]);
        c := Filled(c, Data(cs[k])[..part]);
        PullHolds(cs, w, total, s, c, k, part);
        cs' := [c] + ([Dropped(cs[k], part)] + cs[k + 1..]);
      } else {
        AllChains(cs, k);
        assert s[..c.off] == s;
        PullAll(cs, w, total, s, c);
        cs' := [c];
      }
    }

    /** Gathers the first n bytes in the chain `tmp`, which holds those of the first chains
        already, and frees what it copies. */
    method PullInto(tmp: Chain, first: nat, n: nat, ghost s: seq<byte>)
      requires Holds(chains, lastWithData, totalLen, s) && first <= 1 && chains != [] && chains[0].off < n <= |s|
      requires tmp.Fits() && tmp.off < n && tmp.misalign + n <= |tmp.buffer|
      requires tmp.off == |Contents(chains[..first])| && Data(tmp) == s[..tmp.off]
      modifies this`chains, this`lastWithData
      ensures Holds(chains, lastWithData, totalLen, s) && chains != [] && chains[0].off == n
    {
      var cs, w := chains, lastWithData;
      BeyondFirst(cs, w, totalLen, s);
      var c, k, gone, gonep := GatherChains(cs, tmp, first, n, w, s);
      assert cs[..0] == [];
      chains := Assemble(cs, c, k, n, w, totalLen, s);
      if gone {
        lastWithData := 0;
      } else if gonep {
        lastWithData := 0;
        if |chains| > 1 && chains[1].off > 0 {
          lastWithData := 1;
        }
      } else {
        lastWithData := w - k + 1;
      }
    }

    /** evbuffer_pullup: the first bytes, all of them for a negative size, end up in one
        piece. */
    method Pullup(size: int) returns (ok: bool)
      requires Valid()
      modifies this`chains, this`lastWithData
      ensures Valid() && Bytes() == old(Bytes())
      ensures var n := if size < 0 then |Bytes()| else size;
        && ok == (0 < n <= |Bytes()| && n <= MAX_BUFFER)
        && (ok ==> chains != [] && chains[0].off >= n && Data(chains[0])[..n] == Bytes()[..n])
    {
      var n := if size < 0 then totalLen else size;
      if n == 0 || n > totalLen {
        return false;
      }
      ghost var s := Bytes();
      var c, first := chains[0], 1;
      ok := true;
      if c.off < n {
        if |c.buffer| - c.misalign >= n {
          FirstBytes(chains, c.off);
          assert Data(c)[..c.off] == Data(c);
        } else {
          var r := ChainNew(n);
          if r.None? {
            return false;
          }
          c, first := r.value, 0;
        }
        assert chains[..1][1..] == [] && Contents(chains[..1]) == Data(chains[0]) + [];
        PullInto(c, first, n, s);
      }
      FirstBytes(chains, n);
    }

    // -------------------------------------------------------------- search

    /** memchr: the first place of a byte, or the length. */
    static method Memchr(s: seq<byte>, b: byte) returns (i: nat)
      ensures i <= |s| && (forall j :: 0 <= j < i ==> s[j] != b) && (i < |s| ==> s[i] == b)
    {
      i := 0;
      while i < |s| && s[i] != b
        invariant 0 <= i <= |s| && forall j :: 0 <= j < i ==> s[j] != b
      {
        i := i + 1;
      }
    }

    /** Compares n more bytes, within a chain. */
    static method SamePart(cs: seq<Chain>, ghost start: nat, p: Place, mem: seq<byte>, done: nat, n: nat)
      returns (r: bool)
      requires AllFit(cs) && At(cs, p) && p.chain < |cs| && p.posInChain + n <= cs[p.chain].off
      requires done + n <= |mem| && p.pos == start + done && start + |mem| <= |Contents(cs)|
      requires Contents(cs)[start..start + done] == mem[..done]
      ensures r ==> Contents(cs)[start..start + done + n] == mem[..done + n]
      ensures !r ==> !Occurs(Contents(cs), mem, start)
    {
      BytesAt(cs, p, n);
      r := Data(cs[p.chain])[p.posInChain..p.posInChain + n] == mem[done..done + n];
      MatchFurther(Contents(cs), mem, start, done, n);
    }

    /** evbuffer_ptr_memcmp, for equality: the bytes from a place on, across chains. */
    static method SameAt(cs: seq<Chain>, total: nat, from: Place, mem: seq<byte>) returns (same: bool)
      requires AllFit(cs) && At(cs, from) && total == |Contents(cs)|
      ensures same <==> Occurs(Contents(cs), mem, from.pos)
    {
      if from.pos + |mem| > total {
        return false;
      }
      var p, done := from, 0;
      while done < |mem| && p.chain < |cs|
        invariant 0 <= done <= |mem| && At(cs, p) && p.pos == from.pos + done
        invariant Contents(cs)[from.pos..from.pos + done] == mem[..done]
        decreases |cs| - p.chain
      {
        var c := cs[p.chain];
        var n := if |mem| - done + p.posInChain > c.off then c.off - p.posInChain else |mem| - done;
        var r := SamePart(cs, from.pos, p, mem, done, n);
        if !r {
          return false;
        }
        done := done + n;
        if done == |mem| {
          return true;
        }
        NextAt(cs, p);
        p := Place(p.pos + n, p.chain + 1, 0);
      }
      AtBounds(cs, p);
      same := true;
    }

    static method OneFurther(cs: seq<Chain>, p: Place) returns (p': Place)
      requires AllFit(cs) && At(cs, p) && p.chain < |cs| && p.posInChain < cs[p.chain].off
      ensures At(cs, p') && p'.pos == p.pos + 1
      ensures p'.chain == p.chain + 1 || (p'.chain == p.chain && p'.posInChain == p.posInChain + 1)
    {
      if p.posInChain + 1 == cs[p.chain].off {
        NextAt(cs, p);
        p' := Place(p.pos + 1, p.chain + 1, 0);
      } else {
        p' := Place(p.pos + 1, p.chain, p.posInChain + 1);
      }
    }

    /** How far it is to the next byte in this chain that could begin an occurrence. */
    static method FirstByte(cs: seq<Chain>, p: Place, what: seq<byte>, ghost lo: nat) returns (i: nat)
      requires AllFit(cs) && At(cs, p) && p.chain < |cs| && what != []
      requires lo <= p.pos && NoneIn(Contents(cs), what, lo, p.pos)
      ensures p.posInChain + i <= cs[p.chain].off && NoneIn(Contents(cs), what, lo, p.pos + i)
    {
      var d := Data(cs[p.chain])[p.posInChain..];
      i := Memchr(d, what[0]);
      SkipBytes(cs, p, d, what, i, lo);
    }

    /** evbuffer_search_range, once there is something to search for: the first occurrence
        from `start` on, if it ends by `end`. */
    static method SearchChains(cs: seq<Chain>, total: nat, what: seq<byte>, start: Place, end: Option<Place>)
      returns (r: Option<Place>)
      requires AllFit(cs) && total == |Contents(cs)| && At(cs, start) && what != []
      requires end.Some? ==> At(cs, end.value)
      ensures r.Some? ==>
        && At(cs, r.value) && start.pos <= r.value.pos && Occurs(Contents(cs), what, r.value.pos)
        && (end.Some? ==> r.value.pos + |what| <= end.value.pos)
        && NoneIn(Contents(cs), what, start.pos, r.value.pos)
      ensures r.None? ==>
        NoneIn(Contents(cs), what, start.pos, if end.Some? then end.value.pos - |what| + 1 else total + 1)
    {
      var p := start;
      while p.chain < |cs|
        invariant At(cs, p) && start.pos <= p.pos && NoneIn(Contents(cs), what, start.pos, p.pos)
        decreases |cs| - p.chain, if p.chain < |cs| then cs[p.chain].off - p.posInChain else 0
      {
        var i := FirstByte(cs, p, what, start.pos);
        if i < cs[p.chain].off - p.posInChain {
          var same;
          same, p := TryAt(cs, total, Place(p.pos + i, p.chain, p.posInChain + i), what, start.pos);
          if same {
            return EndsBy(p, |what|, end);
          }
        } else {
          NextAt(cs, p);
          if end.Some? && end.value.chain == p.chain {
            return None;
          }
          p := Place(p.pos + i, p.chain + 1, 0);
        }
      }
      AtBounds(cs, p);
      r := None;
    }

    /** Looks for an occurrence at p, and goes on by one byte if there is none. */
    static method TryAt(cs: seq<Chain>, total: nat, p: Place, what: seq<byte>, ghost lo: nat)
      returns (same: bool, p': Place)
      requires AllFit(cs) && total == |Contents(cs)| && what != []
      requires At(cs, p) && p.chain < |cs| && p.posInChain < cs[p.chain].off
      requires lo <= p.pos && NoneIn(Contents(cs), what, lo, p.pos)
      ensures same ==> p' == p && Occurs(Contents(cs), what, p.pos)
      ensures !same ==> At(cs, p') && p'.pos == p.pos + 1 && NoneIn(Contents(cs), what, lo, p'.pos)
      ensures !same ==> p'.chain == p.chain + 1 || (p'.chain == p.chain && p'.posInChain == p.posInChain + 1)
    {
      same := SameAt(cs, total, p, what);
      p' := p;
      if !same {
        p' := OneFurther(cs, p);
      }
    }

    /** An occurrence of n bytes counts if it ends by the end. */
    static function EndsBy(p: Place, n: nat, end: Option<Place>): (r: Option<Place>)
      ensures r.Some? <==> (end.Some? ==> p.pos + n <= end.value.pos)
      ensures r.Some? ==> r.value == p
    {
      if end.Some? && p.pos + n > end.value.pos then None else Some(p)
    }

    /** evbuffer_search_range. Searching for nothing, or for more than a signed size can tell,
        finds it at once. */
    method SearchRange(what: seq<byte>, start: Option<Place>, end: Option<Place>) returns (r: Option<Place>)
      requires Valid() && (start.Some? ==> At(chains, start.value)) && (end.Some? ==> At(chains, end.value))
      ensures var p := if start.Some? then start.value.pos else 0;
        var stop := if end.Some? then end.value.pos else |Bytes()|;
        var sought := 0 < |what| <= CHAIN_MAX;
        && (!sought ==> r.Some? && r.value.pos == p)
        && (sought && r.Some? ==>
              && At(chains, r.value) && p <= r.value.pos && r.value.pos + |what| <= stop
              && Occurs(Bytes(), what, r.value.pos) && NoneIn(Bytes(), what, p, r.value.pos))
        && (sought && r.None? ==>
              forall q :: p <= q && Occurs(Bytes(), what, q) ==> q + |what| > stop)
    {
      var p := START;
      StartAt(chains);
      if start.Some? {
        p := start.value;
      }
      if what == [] || |what| > CHAIN_MAX {
        return Some(p);
      }
      r := SearchChains(chains, totalLen, what, p, end);
    }
  }

  lemma KeepsTail(a: seq<byte>, b: seq<byte>, k: nat)
    requires a == b && k <= |a|
    ensures a[k..] == b[k..]
  {
  }

  lemma Rejoin(data: seq<byte>, left: nat, s: seq<byte>)
    requires left <= |data|
    ensures data[..left] + (data[left..] + s) == data + s
  {
    assert data[..left] + data[left..] == data;
    Assoc(data[..left], data[left..], s);
  }
}
