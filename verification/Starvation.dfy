/** How large a frame may be before a sender can be left without credit. */
module Starvation {
  import opened Wire
  import opened Streams
  import opened FlowControl

  /** A DATA frame: its length and how much of it the client reports as used. */
  datatype Read = Read(length: u32, used: u32)

  /** The receive window after some frames, each used in part or in full. A frame that the
      window does not cover ends the run. */
  function Receive(r: Stream, frames: seq<Read>): Stream
    decreases |frames|
  {
    if frames == [] || frames[0].length > r.recvWindow then r
    else Receive(ReceiveOne(r, frames[0]), frames[1..])
  }

  function ReceiveOne(r: Stream, f: Read): Stream
    requires f.length <= r.recvWindow
  {
    SendWindowUpdate(r.(recvWindow := r.recvWindow - f.length), f.used).0
  }

  predicate Bounded(frames: seq<Read>, bound: nat) {
    forall k :: 0 <= k < |frames| ==> frames[k].used <= frames[k].length <= bound
  }

  /** However little of a frame is used, the unsigned credit does not wrap, the window never
      exceeds 256 KiB, and it lacks less than half of that beside the bytes used. */
  lemma OneFrame(r: Stream, f: Read)
    requires r.state == Established && f.used <= f.length <= r.recvWindow <= MAX_WINDOW
    ensures var s := r.(recvWindow := r.recvWindow - f.length);
      WindowDelta(s, f.used) == MAX_WINDOW - f.used - s.recvWindow
    ensures var r' := ReceiveOne(r, f);
      r'.state == Established && MAX_WINDOW / 2 - f.used < r'.recvWindow <= MAX_WINDOW
  {
    WindowAfterData(r.(recvWindow := r.recvWindow - f.length), f.used);
  }

  lemma {:induction false} NeverStarves(r: Stream, frames: seq<Read>)
    requires r.state == Established && 0 < r.recvWindow <= MAX_WINDOW
    requires Bounded(frames, MAX_WINDOW / 2)
    ensures 0 < Receive(r, frames).recvWindow <= MAX_WINDOW
    decreases |frames|
  {
    if frames != [] && frames[0].length <= r.recvWindow {
      OneFrame(r, frames[0]);
      NeverStarves(ReceiveOne(r, frames[0]), frames[1..]);
    }
  }

  /** Half a window is the exact limit: with larger frames allowed, an established stream
      can be left with no credit at all although everything sent was consumed. The ring
      capacity of 32 KiB keeps every frame well below it. */
  lemma StarvationThreshold(r: Stream, bound: nat)
    requires r.state == Established && r.recvWindow == MAX_WINDOW
    ensures bound <= MAX_WINDOW / 2 <==>
      forall frames: seq<Read> :: Bounded(frames, bound) ==> Receive(r, frames).recvWindow > 0
  {
    if bound <= MAX_WINDOW / 2 {
      forall frames: seq<Read> | Bounded(frames, bound)
        ensures Receive(r, frames).recvWindow > 0
      {
        NeverStarves(r, frames);
      }
    } else {
      var half: u32 := MAX_WINDOW / 2;
      var frames := [Read(half - 1, half - 1), Read(half + 1, half + 1)];
      StarvingRun(r, frames);
      assert Bounded(frames, bound);
    }
  }

  lemma StarvingRun(r: Stream, frames: seq<Read>)
    requires r.state == Established && r.recvWindow == MAX_WINDOW
    requires var half: u32 := MAX_WINDOW / 2;
      frames == [Read(half - 1, half - 1), Read(half + 1, half + 1)]
    ensures Receive(r, frames).recvWindow == 0
  {
    var rest := frames[1..];
    assert rest[0] == frames[1] && rest[1..] == [];
    var r1 := r.(recvWindow := MAX_WINDOW / 2 + 1);
    WindowAfterData(r1, frames[0].used);
    assert Receive(r, frames) == Receive(r1, rest);
    WindowAfterData(r.(recvWindow := 0), rest[0].used);
    assert Receive(r1, rest) == Receive(r.(recvWindow := 0), rest[1..]);
  }
}
