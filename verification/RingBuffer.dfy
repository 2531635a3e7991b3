/** The fixed-capacity byte ring of a stream, updated in place. */
module RingBuffers {
  import opened Arith
  import opened Wire

  // RBUF_SIZE and WBUF_SIZE are the same 32 KiB
  const CAPACITY := 32 * 1024

  /** Slot of the i-th queued byte when the oldest one is in slot `cur`. */
  function Slot(cur: int, i: int): (r: int)
    requires 0 <= cur < CAPACITY && 0 <= i <= CAPACITY
    ensures 0 <= r < CAPACITY
    ensures r == (cur + i) % CAPACITY
  {
    if cur + i < CAPACITY then cur + i else cur + i - CAPACITY
  }

  /** The n bytes queued from slot `cur` on, oldest first. */
  ghost function Queued(slots: seq<byte>, cur: nat, n: nat): (s: seq<byte>)
    requires |slots| == CAPACITY && cur < CAPACITY && n <= CAPACITY
    ensures |s| == n
    ensures forall i :: 0 <= i < n ==> s[i] == slots[Slot(cur, i)]
  {
    seq(n, i requires 0 <= i < n => slots[Slot(cur, i)])
  }

  class RingBuffer {
    var cur: nat
    var end: nat
    var sz: nat
    const data: array<byte>

    ghost predicate Valid()
      reads this
    {
      && data.Length == CAPACITY
      && cur < CAPACITY
      && sz <= CAPACITY
      && end == Slot(cur, sz)
    }

    /** The queued bytes, oldest first. */
    ghost function Contents(): (s: seq<byte>)
      requires Valid()
      reads this, data
      ensures |s| == sz
    {
      Queued(data[..], cur, sz)
    }

    constructor ()
      ensures Valid() && fresh(data)
      ensures Contents() == []
    {
      data := new byte[CAPACITY](_ => 0);
      cur, end, sz := 0, 0, 0;
    }

    /** Stores one byte at `end`. */
    method Put(b: byte)
      requires Valid() && sz < CAPACITY
      modifies this, data
      ensures Valid()
      ensures Contents() == old(Contents()) + [b]
      ensures cur == old(cur)
    {
      data[end] := b;
      end := end + 1;
      if end == CAPACITY { end := 0; }
      sz := sz + 1;
      assert forall i :: 0 <= i < sz - 1 ==> Slot(cur, i) != Slot(cur, sz - 1);
    }

    /** Takes the byte at `cur`. */
    method Take() returns (b: byte)
      requires Valid() && 0 < sz
      modifies this
      ensures Valid()
      ensures [b] + Contents() == old(Contents())
      ensures end == old(end)
    {
      b := data[cur];
      cur := cur + 1;
      if cur == CAPACITY { cur := 0; }
      sz := sz - 1;
    }

    /** The caller must leave room for all of `src`. The returned count is one short
        exactly when the ring has just become full. */
    method Append(src: seq<byte>) returns (n: nat)
      requires Valid()
      requires |src| <= CAPACITY - sz
      modifies this, data
      ensures Valid()
      ensures Contents() == old(Contents()) + src
      ensures n == if src != [] && sz == CAPACITY then |src| - 1 else |src|
    {
      n := 0;
      while n < |src|
        invariant 0 <= n <= |src|
        invariant Valid()
        invariant sz == old(sz) + n
        invariant Contents() == old(Contents()) + src[..n]
        invariant 0 < n ==> sz < CAPACITY
      {
        Put(src[n]);
        assert src[..n + 1] == src[..n] + [src[n]];
        if cur == end {
          assert sz == CAPACITY;
          assert src[..n + 1] == src;
          return;
        }
        n := n + 1;
      }
      assert src[..n] == src;
    }

    /** Moves up to `len` bytes from the front of `input` into the ring, as many as
        there is room for. */
    method Read(input: seq<byte>, len: nat) returns (rest: seq<byte>, n: nat)
      requires Valid()
      requires len <= |input|
      modifies this, data
      ensures Valid()
      ensures n == Min(len, CAPACITY - old(sz))
      ensures rest == input[n..]
      ensures Contents() == old(Contents()) + input[..n]
    {
      if sz == CAPACITY {
        return input, 0;
      }
      n := Min(len, CAPACITY - sz);
      var i := 0;
      while i < n
        invariant 0 <= i <= n
        invariant Valid()
        invariant sz == old(sz) + i
        invariant Contents() == old(Contents()) + input[..i]
      {
        Put(input[i]);
        assert input[..i + 1] == input[..i] + [input[i]];
        i := i + 1;
        if cur == end {
          assert sz == CAPACITY;
          break;
        }
      }
      rest := input[n..];
    }

    /** Moves up to `len` bytes from the ring to the end of `output`. */
    method Write(output: seq<byte>, len: nat) returns (output': seq<byte>, n: nat)
      requires Valid()
      modifies this
      ensures Valid()
      ensures n == Min(len, old(sz))
      ensures output' == output + old(Contents())[..n]
      ensures Contents() == old(Contents())[n..]
    {
      output' := output;
      if sz == 0 {
        return output, 0;
      }
      var nwrite := Min(len, sz);
      var left := nwrite;
      while left > 0
        invariant 0 <= left <= nwrite
        invariant Valid()
        invariant sz == old(sz) - (nwrite - left)
        invariant output' == output + old(Contents())[..nwrite - left]
        invariant Contents() == old(Contents())[nwrite - left..]
      {
        ghost var before := Contents();
        var b := Take();
        assert before[0] == b && before[1..] == Contents();
        output' := output' + [b];
        left := left - 1;
        if cur == end {
          assert sz == 0;
          break;
        }
      }
      n := nwrite - left;
    }

    /** Takes exactly `len` bytes, which the caller must know to be there. */
    method Pop(len: nat) returns (out: seq<byte>)
      requires Valid()
      requires len <= sz
      modifies this
      ensures Valid()
      ensures out == old(Contents())[..len]
      ensures Contents() == old(Contents())[len..]
    {
      out := [];
      while |out| < len
        invariant |out| <= len
        invariant Valid()
        invariant sz == old(sz) - |out|
        invariant out == old(Contents())[..|out|]
        invariant Contents() == old(Contents())[|out|..]
      {
        ghost var before := Contents();
        var b := Take();
        assert before[0] == b && before[1..] == Contents();
        out := out + [b];
      }
    }
  }
}
