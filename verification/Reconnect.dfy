/** The reader of a connection that was lost: its place in a frame is kept in static
    variables that a reconnect does not touch. */
module Reconnect {
  import opened Wire
  import opened RingBuffers
  import opened Streams
  import opened Mux
  import opened Demux
  import opened Control

  /** The reader of the new connection, with its first bytes. */
  function Reconnected(lost: Conn, c: Ctl, input: seq<byte>): Conn {
    Conn(lost.phase, ClearAll(c, true).ep, lost.abandoned, input)
  }

  function PingFrame(pingId: u32): Frame {
    Frame(Header(PROTO_VERSION, PING, SYN, 0, pingId), [])
  }

  /** The lost connection ended between two frames, or behind the header of an empty DATA
      frame whose stream is there again. */
  predicate CutBetweenFrames(p: Phase) {
    p.AtHeader? || (p.left == 0 && (p.target.Abandon? || p.target.id == 1))
  }

  predicate Answers(p: Progress, pingId: u32) {
    p.Up? && p.c.ep.out == [PingAckFrame(pingId)]
  }

  lemma PingBytes(pingId: u32)
    ensures FrameBytes(PingFrame(pingId)) == Encode(PingFrame(pingId).hdr)
    ensures |FrameBytes(PingFrame(pingId))| == HEADER_SIZE
  {
  }

  /** At a header the first frame of the new connection is read as such. */
  lemma PingAnswered(c: Conn, pingId: u32, h: Hooks)
    requires c.phase.AtHeader? && c.ep.out == [] && c.input == FrameBytes(PingFrame(pingId))
    ensures Answers(Run(c, Dispatcher(h)), pingId)
  {
    var hdr := PingFrame(pingId).hdr;
    PingBytes(pingId);
    DecodeEncode(hdr);
    assert c.input[..HEADER_SIZE] == Encode(hdr) && c.input[HEADER_SIZE..] == [];
    var c1 := c.(input := []);
    assert Handle(c.ep, hdr, h) == Live(Emit(c.ep, [PingAckFrame(pingId)]));
    assert FinishFrame(c1, hdr, false, Dispatcher(h)) ==
      Up(c1.(phase := AtHeader, ep := Emit(c.ep, [PingAckFrame(pingId)])));
  }

  /** Ending a stale frame on the new control stream, which is not established yet, sends
      nothing. */
  lemma StaleFrameSilent(c: Conn, hdr: Header, abandon: bool, h: Hooks)
    requires c.ep.streams.Keys == {1} && c.ep.streams[1].state == Init && hdr.typ == DATA
    ensures FinishFrame(c, hdr, abandon, Dispatcher(h)).Up?
    ensures FinishFrame(c, hdr, abandon, Dispatcher(h)).c.ep == c.ep
    ensures FinishFrame(c, hdr, abandon, Dispatcher(h)).c.input == c.input
    ensures FinishFrame(c, hdr, abandon, Dispatcher(h)).c.phase.AtHeader?
  {
  }

  /** What holds of a reader between two callbacks: payload is held for the scratch stream only
      while it is being read. */
  predicate ReaderValid(c: Conn) {
    && ValidPhase(c.phase) && |c.abandoned| <= CAPACITY
    && ((c.phase.InBody? && c.phase.target.Abandon?) || c.abandoned == [])
  }

  /** A reader that is at the beginning of a new connection. */
  function AtBeginning(c: Ctl, input: seq<byte>): Conn {
    Conn(AtHeader, ClearAll(c, true).ep, [], input)
  }

  /** Between two frames the old place is as good as the beginning. */
  lemma CleanCut(lost: Conn, c: Ctl, b: seq<byte>, h: Hooks)
    requires ReaderValid(lost) && CutBetweenFrames(lost.phase) && b != []
    ensures Run(Reconnected(lost, c, b), Dispatcher(h)) == Run(AtBeginning(c, b), Dispatcher(h))
  {
    if lost.phase.InBody? {
      var r, d := Reconnected(lost, c, b), Dispatcher(h);
      var q := ReadInto(r, r.phase.target, 0);
      assert b[0..] == b && b[..0] == [];
      assert r.abandoned + [] == r.abandoned;
      assert q == Up(r) by {
        if r.phase.target.To? {
          var s := r.ep.streams[1];
          assert s.rx + [] == s.rx;
          assert r.ep.streams[1 := s] == r.ep.streams;
        }
      }
      RunWhole(r, d, q);
      StaleFrameSilent(r, r.phase.hdr, r.phase.target.Abandon?, h);
      assert FinishFrame(r, r.phase.hdr, r.phase.target.Abandon?, d) == Up(AtBeginning(c, b));
    }
  }

  /** The reader of the new connection reads everything the server may send as a reader at its
      beginning would, if and only if the lost connection ended between two frames. Otherwise
      the server's first bytes are taken for the rest of a payload: not even a ping is
      answered. */
  lemma ReconnectIff(lost: Conn, c: Ctl, h: Hooks)
    requires ReaderValid(lost)
    ensures (forall b: seq<byte> :: b != [] ==>
               Run(Reconnected(lost, c, b), Dispatcher(h)) == Run(AtBeginning(c, b), Dispatcher(h)))
            <==> CutBetweenFrames(lost.phase)
  {
    if CutBetweenFrames(lost.phase) {
      forall b: seq<byte> | b != []
        ensures Run(Reconnected(lost, c, b), Dispatcher(h)) == Run(AtBeginning(c, b), Dispatcher(h))
      {
        CleanCut(lost, c, b, h);
      }
    } else {
      var b := FrameBytes(PingFrame(0));
      PingAnswered(AtBeginning(c, b), 0, h);
      InsideFrame(Reconnected(lost, c, b), 0, h);
    }
  }

  /** So whatever frames come first are handled one by one. */
  lemma ReconnectFrames(lost: Conn, c: Ctl, fs: seq<Frame>, h: Hooks)
    requires ReaderValid(lost) && CutBetweenFrames(lost.phase)
    requires fs != [] && forall f <- fs :: WellFramed(f)
    ensures Run(Reconnected(lost, c, Bytes(fs)), Dispatcher(h)) ==
      Settled(AtBeginning(c, Bytes(fs)), fs, Dispatcher(h))
  {
    BytesNonEmpty(fs);
    CleanCut(lost, c, Bytes(fs), h);
    RunFrames(AtBeginning(c, Bytes(fs)), fs, Dispatcher(h));
  }

  lemma InsideFrame(r: Conn, pingId: u32, h: Hooks)
    requires ValidPhase(r.phase) && r.phase.InBody? && |r.abandoned| <= CAPACITY
    requires r.ep.streams == map[1 := NewStream(1)] && r.ep.out == []
    requires r.input == FrameBytes(PingFrame(pingId))
    ensures Answers(Run(r, Dispatcher(h)), pingId) <==> CutBetweenFrames(r.phase)
  {
    var d := Dispatcher(h);
    var InBody(hdr, t, left) := r.phase;
    PingBytes(pingId);
    if left <= HEADER_SIZE {
      var q := ReadInto(r, t, left);
      RunWhole(r, d, q);
      if q.Up? {
        StaleFrameSilent(q.c, hdr, t.Abandon?, h);
        var c2 := FinishFrame(q.c, hdr, t.Abandon?, d).c;
        if left == 0 {
          assert r.input[0..] == r.input;
          PingAnswered(c2, pingId, h);
        } else {
          assert Run(c2, d) == Up(c2);
        }
      }
    }
  }
}
