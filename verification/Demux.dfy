/** The incremental demultiplexer: the connection's input arrives in chunks of any size
    and is cut into frames. */
module Demux {
  import opened Seqs
  import opened Arith
  import opened Wire
  import opened RingBuffers
  import opened Streams
  import opened Mux

  /** Where the payload being read goes: a stream of the table, or the scratch stream that
      swallows payload for unknown streams. */
  datatype Target = To(id: u32) | Abandon

  datatype Phase = AtHeader | InBody(hdr: Header, target: Target, left: u32)

  /** `input` holds the bytes that arrived and were not read yet. */
  datatype Conn = Conn(phase: Phase, ep: Endpoint, abandoned: seq<byte>, input: seq<byte>)

  datatype Progress = Up(c: Conn) | Down

  /** Moves n bytes of input into the ring of a target, all of which must fit. */
  function ReadInto(c: Conn, t: Target, n: nat): Progress
    requires n <= |c.input|
  {
    var c1 := c.(input := c.input[n..]);
    match t
    case Abandon =>
      if |c.abandoned| + n > CAPACITY then Down
      else Up(c1.(abandoned := c.abandoned + c.input[..n]))
    case To(id) =>
      if id !in c.ep.streams || |c.ep.streams[id].rx| + n > CAPACITY then Down
      else
        var s := c.ep.streams[id];
        Up(c1.(ep := c.ep.(streams := c.ep.streams[id := s.(rx := s.rx + c.input[..n])])))
  }

  /** End of a frame: abandoned payload is forgotten, anything else is dispatched. */
  function FinishFrame(c: Conn, hdr: Header, abandon: bool, d: Dispatch): Progress
  {
    if abandon then
      Up(c.(phase := AtHeader, abandoned := []))
    else
      match d(c.ep, hdr)
      case Aborted => Down
      case Live(ep) => Up(c.(phase := AtHeader, ep := ep))
  }

  predicate ValidPhase(p: Phase) {
    p.InBody? ==> ValidHeader(p.hdr) && p.hdr.typ == DATA
  }

  /** Reads as far as the input allows. */
  function Run(c: Conn, d: Dispatch): (r: Progress)
    requires ValidPhase(c.phase)
    ensures r.Up? ==> ValidPhase(r.c.phase)
    decreases |c.input|, if c.phase.InBody? then 1 else 0
  {
    if c.input == [] then
      Up(c)
    else
      match c.phase
      case AtHeader =>
        if |c.input| < HEADER_SIZE then
          Up(c)
        else
          var hdr := Decode(c.input[..HEADER_SIZE]);
          var c1 := c.(input := c.input[HEADER_SIZE..]);
          if !ValidHeader(hdr) then
            Down
          else if hdr.typ != DATA then
            match FinishFrame(c1, hdr, false, d)
            case Down => Down
            case Up(c2) => Run(c2, d)
          else if hdr.id in c.ep.streams then
            Run(c1.(phase := InBody(hdr, To(hdr.id), hdr.length)), d)
          else if hdr.length > 0 then
            Run(c1.(phase := InBody(hdr, Abandon, hdr.length)), d)
          else
            Run(c1, d)
      case InBody(hdr, t, left) =>
        if |c.input| < left then
          match ReadInto(c, t, |c.input|)
          case Down => Down
          case Up(c1) => Up(c1.(phase := InBody(hdr, t, left - |c.input|)))
        else
          match ReadInto(c, t, left)
          case Down => Down
          case Up(c1) =>
            match FinishFrame(c1, hdr, t.Abandon?, d)
            case Down => Down
            case Up(c2) => Run(c2, d)
  }

  /** One read callback: `chunk` has arrived behind what was already waiting. */
  function Feed(p: Progress, chunk: seq<byte>, d: Dispatch): (r: Progress)
    requires p.Up? ==> ValidPhase(p.c.phase)
    ensures r.Up? ==> ValidPhase(r.c.phase)
  {
    match p
    case Down => Down
    case Up(c) => Run(c.(input := c.input + chunk), d)
  }

  function FeedAll(p: Progress, chunks: seq<seq<byte>>, d: Dispatch): (r: Progress)
    requires p.Up? ==> ValidPhase(p.c.phase)
    ensures r.Up? ==> ValidPhase(r.c.phase)
    decreases |chunks|
  {
    if chunks == [] then p else FeedAll(Feed(p, chunks[0], d), chunks[1..], d)
  }

  // ---------------------------------------------------------------- chunk independence

  function Extend(c: Conn, b: seq<byte>): Conn {
    c.(input := c.input + b)
  }

  /** Reading part of a payload now and part later is reading it at once. */
  lemma ReadIntoSplit(c: Conn, t: Target, b: seq<byte>, k: nat)
    requires k <= |b|
    ensures
      ReadInto(Extend(c, b), t, |c.input| + k) ==
      match ReadInto(c, t, |c.input|)
      case Down => Down
      case Up(c1) => ReadInto(Extend(c1, b), t, k)
  {
    assert (c.input + b)[..|c.input| + k] == c.input + b[..k];
    assert (c.input + b)[|c.input| + k..] == b[k..];
    assert c.input[..|c.input|] == c.input;
    assert c.input[|c.input|..] == [];
    assert [] + b == b;
    if t.Abandon? {
      assert c.abandoned + (c.input + b[..k]) == (c.abandoned + c.input) + b[..k];
    } else if t.id in c.ep.streams {
      var s := c.ep.streams[t.id];
      assert s.rx + (c.input + b[..k]) == (s.rx + c.input) + b[..k];
      var m1 := c.ep.streams[t.id := s.(rx := s.rx + c.input)];
      assert m1[t.id := s.(rx := s.rx + c.input + b[..k])]
          == c.ep.streams[t.id := s.(rx := s.rx + c.input + b[..k])];
    }
  }

  /** Input behind what is read does not matter. */
  lemma ReadIntoExtend(c: Conn, t: Target, b: seq<byte>, n: nat)
    requires n <= |c.input|
    ensures
      ReadInto(Extend(c, b), t, n) ==
      match ReadInto(c, t, n)
      case Down => Down
      case Up(c1) => Up(Extend(c1, b))
  {
    assert (c.input + b)[..n] == c.input[..n];
    assert (c.input + b)[n..] == c.input[n..] + b;
  }

  /** A reader that stopped for want of input and then sees more goes on exactly as if
      all of it had been there from the start: for all bytes, at any point of a frame,
      and for any dispatcher. */
  lemma {:induction false} RunExtend(c: Conn, b: seq<byte>, d: Dispatch)
    requires ValidPhase(c.phase)
    ensures Run(Extend(c, b), d) == Feed(Run(c, d), b, d)
    decreases |c.input|, if c.phase.InBody? then 1 else 0
  {
    var e := Extend(c, b);
    if c.input == [] {
    } else if c.phase.AtHeader? {
      if |c.input| >= HEADER_SIZE {
        assert e.input[..HEADER_SIZE] == c.input[..HEADER_SIZE];
        assert e.input[HEADER_SIZE..] == c.input[HEADER_SIZE..] + b;
        var hdr := Decode(c.input[..HEADER_SIZE]);
        var c1 := c.(input := c.input[HEADER_SIZE..]);
        if !ValidHeader(hdr) {
        } else if hdr.typ != DATA {
          match FinishFrame(c1, hdr, false, d)
          case Down =>
          case Up(c2) => RunExtend(c2, b, d);
        } else if hdr.id in c.ep.streams {
          RunExtend(c1.(phase := InBody(hdr, To(hdr.id), hdr.length)), b, d);
        } else if hdr.length > 0 {
          RunExtend(c1.(phase := InBody(hdr, Abandon, hdr.length)), b, d);
        } else {
          RunExtend(c1, b, d);
        }
      }
    } else {
      if |c.input| < c.phase.left {
        RunExtendShort(c, b, d);
      } else {
        ReadIntoExtend(c, c.phase.target, b, c.phase.left);
        match ReadInto(c, c.phase.target, c.phase.left)
        case Down =>
        case Up(c1) =>
          match FinishFrame(c1, c.phase.hdr, c.phase.target.Abandon?, d)
          case Down =>
          case Up(c2) => RunExtend(c2, b, d);
      }
    }
  }

  /** The step of the previous lemma where the payload is cut short. */
  lemma RunExtendShort(c: Conn, b: seq<byte>, d: Dispatch)
    requires ValidPhase(c.phase) && c.phase.InBody? && c.input != [] && |c.input| < c.phase.left
    ensures Run(Extend(c, b), d) == Feed(Run(c, d), b, d)
  {
    if ReadInto(c, c.phase.target, |c.input|).Down? {
      RunExtendDown(c, b, d);
    } else if b == [] {
      RunExtendEmpty(c, d);
    } else {
      var c1, q := ReadIntoParts(c, b);
      RunExtendMore(c, b, d, c1, q);
    }
  }

  /** Part of a payload has been read, up to c1; q is where reading on from there leads. */
  ghost predicate Resumes(c: Conn, b: seq<byte>, c1: Conn, q: Progress)
    requires c.phase.InBody? && |c.input| < c.phase.left
  {
    var p := c.phase.(left := c.phase.left - |c.input|);
    var e, e2 := Extend(c, b), Extend(c1.(phase := p), b);
    && ReadInto(c, p.target, |c.input|) == Up(c1)
    && |e2.input| == |b|
    && q == ReadInto(e, p.target, Min(|e.input|, c.phase.left))
    && ReadInto(e2, p.target, Min(|e2.input|, p.left)) ==
         match q case Down => Down case Up(c2) => Up(c2.(phase := p))
  }

  lemma ReadIntoParts(c: Conn, b: seq<byte>) returns (c1: Conn, q: Progress)
    requires c.phase.InBody? && |c.input| < c.phase.left && ReadInto(c, c.phase.target, |c.input|).Up?
    ensures Resumes(c, b, c1, q)
  {
    var p := c.phase.(left := c.phase.left - |c.input|);
    var k := Min(|b|, p.left);
    ReadIntoSplit(c, p.target, b, k);
    c1, q := ReadInto(c, p.target, |c.input|).c, ReadInto(Extend(c, b), p.target, |c.input| + k);
    ReadIntoPhase(Extend(c1, b), p.target, k, p);
  }

  lemma RunExtendDown(c: Conn, b: seq<byte>, d: Dispatch)
    requires ValidPhase(c.phase) && c.phase.InBody? && c.input != [] && |c.input| < c.phase.left
    requires ReadInto(c, c.phase.target, |c.input|) == Down
    ensures Run(Extend(c, b), d) == Feed(Run(c, d), b, d)
  {
    ReadIntoSplit(c, c.phase.target, b, Min(|b|, c.phase.left - |c.input|));
  }

  lemma RunExtendEmpty(c: Conn, d: Dispatch)
    requires ValidPhase(c.phase) && c.phase.InBody? && c.input != [] && |c.input| < c.phase.left
    ensures Run(Extend(c, []), d) == Feed(Run(c, d), [], d)
  {
    assert Extend(c, []) == c;
    var r := Run(c, d);
    if r.Up? {
      assert r.c.input == [] && Extend(r.c, []) == r.c;
    }
  }

  lemma RunExtendMore(c: Conn, b: seq<byte>, d: Dispatch, c1: Conn, q: Progress)
    requires ValidPhase(c.phase) && c.phase.InBody? && c.input != [] && |c.input| < c.phase.left
    requires b != [] && Resumes(c, b, c1, q)
    ensures Run(Extend(c, b), d) == Feed(Run(c, d), b, d)
  {
    var InBody(hdr, t, left) := c.phase;
    var c2 := c1.(phase := InBody(hdr, t, left - |c.input|));
    RunShort(c, d, Up(c1));
    ResumeSame(Extend(c, b), Extend(c2, b), d, q);
  }

  /** Two readers of one frame that differ in how much of it is behind them, and where
      reading on leads to the same. */
  lemma ResumeSame(e: Conn, e2: Conn, d: Dispatch, q: Progress)
    requires ValidPhase(e.phase) && e.phase.InBody? && e2.phase.InBody? && e.input != [] && e2.input != []
    requires e2.phase == e.phase.(left := e2.phase.left)
    requires e.phase.left - |e.input| == e2.phase.left - |e2.input|
    requires q == ReadInto(e, e.phase.target, Min(|e.input|, e.phase.left))
    requires ReadInto(e2, e2.phase.target, Min(|e2.input|, e2.phase.left)) ==
      match q case Down => Down case Up(x) => Up(x.(phase := e2.phase))
    ensures Run(e, d) == Run(e2, d)
  {
    var q2 := match q case Down => Down case Up(x) => Up(x.(phase := e2.phase));
    if |e.input| < e.phase.left {
      RunShort(e, d, q);
      RunShort(e2, d, q2);
    } else {
      RunWhole(e, d, q);
      RunWhole(e2, d, q2);
      FinishPhase(q, e2.phase, e.phase.hdr, e.phase.target.Abandon?, d);
    }
  }

  lemma RunShort(c: Conn, d: Dispatch, q: Progress)
    requires ValidPhase(c.phase) && c.phase.InBody? && 0 < |c.input| < c.phase.left
    requires q == ReadInto(c, c.phase.target, |c.input|)
    ensures Run(c, d) == match q
      case Down => Down
      case Up(c1) => Up(c1.(phase := c.phase.(left := c.phase.left - |c.input|)))
  {
  }

  function Finished(q: Progress, hdr: Header, abandon: bool, d: Dispatch): Progress {
    match q case Down => Down case Up(c1) => FinishFrame(c1, hdr, abandon, d)
  }

  lemma RunWhole(c: Conn, d: Dispatch, q: Progress)
    requires ValidPhase(c.phase) && c.phase.InBody? && c.input != [] && c.phase.left <= |c.input|
    requires q == ReadInto(c, c.phase.target, c.phase.left)
    ensures Run(c, d) == match Finished(q, c.phase.hdr, c.phase.target.Abandon?, d)
      case Down => Down
      case Up(c2) => Run(c2, d)
  {
  }

  /** A finished frame leaves no trace of the phase it was read in. */
  lemma FinishPhase(q: Progress, p: Phase, hdr: Header, abandon: bool, d: Dispatch)
    ensures Finished(q, hdr, abandon, d) ==
      Finished(match q case Down => Down case Up(x) => Up(x.(phase := p)), hdr, abandon, d)
  {
  }

  lemma ReadIntoPhase(c: Conn, t: Target, n: nat, p: Phase)
    requires n <= |c.input|
    ensures ReadInto(c.(phase := p), t, n) ==
      match ReadInto(c, t, n) case Down => Down case Up(c1) => Up(c1.(phase := p))
  {
  }

  /** Any two ways to cut the same bytes into chunks end in the same state. */
  lemma {:induction false} ChunkIndependence(c: Conn, chunks: seq<seq<byte>>, d: Dispatch)
    requires ValidPhase(c.phase)
    ensures FeedAll(Run(c, d), chunks, d) == Run(Extend(c, Flatten(chunks)), d)
    decreases |chunks|
  {
    if chunks == [] {
      assert Extend(c, []) == c;
    } else {
      RunExtend(c, chunks[0], d);
      ChunkIndependence(Extend(c, chunks[0]), chunks[1..], d);
      FirstChunk(Run(c, d), chunks, d);
      ExtendTwice(c, chunks[0], Flatten(chunks[1..]));
    }
  }

  lemma FirstChunk(p: Progress, chunks: seq<seq<byte>>, d: Dispatch)
    requires (p.Up? ==> ValidPhase(p.c.phase)) && chunks != []
    ensures FeedAll(p, chunks, d) == FeedAll(Feed(p, chunks[0], d), chunks[1..], d)
    ensures Flatten(chunks) == chunks[0] + Flatten(chunks[1..])
  {
  }

  lemma ExtendTwice(c: Conn, a: seq<byte>, b: seq<byte>)
    ensures Extend(Extend(c, a), b) == Extend(c, a + b)
  {
    Assoc(c.input, a, b);
  }

  // ---------------------------------------------------------------- agreement with whole frames

  /** A zero-length DATA frame of a known stream: at the very end of the input it is read
      but not dispatched until more bytes come. */
  predicate Lags(ep: Endpoint, f: Frame) {
    f.hdr.typ == DATA && f.hdr.length == 0 && f.hdr.id in ep.streams
  }

  /** A complete frame at the front of the input is handled as a whole. */
  lemma RunFrame(c: Conn, f: Frame, rest: seq<byte>, d: Dispatch)
    requires c.phase.AtHeader? && c.abandoned == [] && WellFramed(f)
    requires c.input == FrameBytes(f) + rest
    requires !(Lags(c.ep, f) && rest == [])
    ensures
      Run(c, d) ==
      match HandleFrame(c.ep, f, d)
      case Aborted => Down
      case Live(ep) => Run(c.(ep := ep, input := rest), d)
  {
    assert c.input[..HEADER_SIZE] == Encode(f.hdr);
    assert c.input[HEADER_SIZE..] == f.body + rest;
    DecodeEncode(f.hdr);
    var c1 := c.(input := f.body + rest);
    if f.hdr.typ == DATA {
      assert (f.body + rest)[..|f.body|] == f.body;
      assert (f.body + rest)[|f.body|..] == rest;
      if f.hdr.id in c.ep.streams {
        var c2 := c1.(phase := InBody(f.hdr, To(f.hdr.id), f.hdr.length));
        assert Run(c, d) == Run(c2, d);
      } else if f.hdr.length > 0 {
        var c2 := c1.(phase := InBody(f.hdr, Abandon, f.hdr.length));
        assert Run(c, d) == Run(c2, d);
        assert [] + f.body == f.body;
      } else {
        assert f.body + rest == rest;
      }
    } else {
      assert f.body + rest == rest;
    }
  }

  /** The state in which a reader waits for the rest of its input after the frames `fs`. */
  function Settled(c: Conn, fs: seq<Frame>, d: Dispatch): Progress
    requires forall f <- fs :: WellFramed(f)
    decreases |fs|
  {
    if fs == [] then Up(c.(input := []))
    else if |fs| == 1 && Lags(c.ep, fs[0]) then
      Up(c.(phase := InBody(fs[0].hdr, To(fs[0].hdr.id), 0), input := []))
    else
      match HandleFrame(c.ep, fs[0], d)
      case Aborted => Down
      case Live(ep) => Settled(c.(ep := ep), fs[1..], d)
  }

  lemma BytesNonEmpty(fs: seq<Frame>)
    ensures Bytes(fs) == [] <==> fs == []
  {
  }

  /** Feeding the bytes of well-formed frames, cut in any way, handles those frames one by
      one; only a zero-length DATA frame at the very end may still be pending. */
  lemma {:induction false} RunFrames(c: Conn, fs: seq<Frame>, d: Dispatch)
    requires c.phase.AtHeader? && c.abandoned == []
    requires forall f <- fs :: WellFramed(f)
    requires c.input == Bytes(fs)
    ensures Run(c, d) == Settled(c, fs, d)
    decreases |fs|
  {
    if fs == [] {
    } else if |fs| == 1 && Lags(c.ep, fs[0]) {
      var f := fs[0];
      assert c.input == Encode(f.hdr) by {
        assert WellFramed(f);
        assert fs[1..] == [] && f.body == [];
        assert Bytes(fs) == Encode(f.hdr) + f.body + [];
      }
      assert c.input[..HEADER_SIZE] == Encode(f.hdr) && c.input[HEADER_SIZE..] == [];
      DecodeEncode(f.hdr);
    } else {
      BytesNonEmpty(fs[1..]);
      RunFrame(c, fs[0], Bytes(fs[1..]), d);
      match HandleFrame(c.ep, fs[0], d)
      case Aborted =>
      case Live(ep) =>
        RunFrames(c.(ep := ep, input := Bytes(fs[1..])), fs[1..], d);
        SettledIgnoresInput(c.(ep := ep), Bytes(fs[1..]), fs[1..], d);
    }
  }

  lemma SettledIgnoresInput(c: Conn, input: seq<byte>, fs: seq<Frame>, d: Dispatch)
    requires forall f <- fs :: WellFramed(f)
    ensures Settled(c.(input := input), fs, d) == Settled(c, fs, d)
    decreases |fs|
  {
    if fs != [] && !(|fs| == 1 && Lags(c.ep, fs[0])) {
      match HandleFrame(c.ep, fs[0], d)
      case Aborted =>
      case Live(ep) => SettledIgnoresInput(c.(ep := ep), input, fs[1..], d);
    }
  }

  /** The two results together: frames delivered in arbitrary chunks. */
  lemma ChunkedFrames(ep: Endpoint, fs: seq<Frame>, chunks: seq<seq<byte>>, d: Dispatch)
    requires forall f <- fs :: WellFramed(f)
    requires Flatten(chunks) == Bytes(fs)
    ensures
      var c := Conn(AtHeader, ep, [], []);
      FeedAll(Up(c), chunks, d) == Settled(c, fs, d)
  {
    var c := Conn(AtHeader, ep, [], []);
    assert Run(c, d) == Up(c);
    ChunkIndependence(c, chunks, d);
    assert Extend(c, Flatten(chunks)) == c.(input := Bytes(fs));
    RunFrames(c.(input := Bytes(fs)), fs, d);
    SettledIgnoresInput(c, Bytes(fs), fs, d);
  }
}
