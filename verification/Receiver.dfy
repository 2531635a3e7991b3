/** The read callback as the program runs it: one loop over the bytes at hand, with the
    current stream, its header and the missing payload length kept between calls. */
module Receivers {
  import opened Wire
  import opened RingBuffers
  import opened Mux
  import opened Demux

  datatype Current = NoStream | Reading(target: Target)

  class Receiver {
    var ep: Endpoint
    var cur: Current
    var hdr: Header
    var streamLen: u32
    var abandoned: seq<byte>
    var input: seq<byte>
    var down: bool

    ghost predicate Valid()
      reads this
    {
      ValidPhase(Phase())
    }

    ghost function Phase(): Phase
      reads this
    {
      match cur
      case NoStream => AtHeader
      case Reading(t) => InBody(hdr, t, streamLen)
    }

    ghost function View(): Progress
      reads this
    {
      if down then Down else Up(Conn(Phase(), ep, abandoned, input))
    }

    constructor (ep: Endpoint)
      ensures Valid() && View() == Up(Conn(AtHeader, ep, [], []))
    {
      this.ep := ep;
      cur, streamLen, abandoned, input, down := NoStream, 0, [], [], false;
      hdr := Header(0, 0, 0, 0, 0);
    }

    /** Takes n bytes of input into the ring of the target; false if they do not fit. */
    method ReadBytes(t: Target, n: nat) returns (ok: bool)
      requires n <= |input|
      modifies this`ep, this`abandoned, this`input
      ensures |input| <= |old(input)|
      ensures var c := Conn(Phase(), old(ep), old(abandoned), old(input));
        if ok then ReadInto(c, t, n) == Up(Conn(Phase(), ep, abandoned, input))
        else ReadInto(c, t, n) == Down
    {
      match t {
        case Abandon =>
          ok := |abandoned| + n <= CAPACITY;
          if ok {
            abandoned := abandoned + input[..n];
            input := input[n..];
          }
        case To(id) =>
          ok := id in ep.streams && |ep.streams[id].rx| + n <= CAPACITY;
          if ok {
            var s := ep.streams[id];
            ep := ep.(streams := ep.streams[id := s.(rx := s.rx + input[..n])]);
            input := input[n..];
          }
      }
    }

    /** Dispatches a complete frame, or forgets abandoned payload. */
    method Finish(abandon: bool, d: Dispatch) returns (stop: bool)
      requires !down
      modifies this`ep, this`cur, this`abandoned, this`down
      ensures hdr == old(hdr) && input == old(input)
      ensures var c := Conn(old(Phase()), old(ep), old(abandoned), input);
        View() == FinishFrame(c, hdr, abandon, d) && stop == down
      ensures cur == if stop then old(cur) else NoStream
    {
      stop := false;
      if abandon {
        abandoned := [];
      } else {
        match d(ep, hdr) {
          case Aborted =>
            down := true;
            return true;
          case Live(ep1) =>
            ep := ep1;
        }
      }
      cur := NoStream;
    }

    /** Reads payload for `t`; stops when it is not complete yet. */
    method ReadBody(t: Target, d: Dispatch) returns (stop: bool)
      requires !down && input != [] && ValidHeader(hdr) && hdr.typ == DATA
      modifies this
      ensures Valid() && |input| <= |old(input)|
      ensures var c := Conn(InBody(old(hdr), t, old(streamLen)), old(ep), old(abandoned), old(input));
        if stop then View() == Run(c, d)
        else !down && cur.NoStream? && Run(View().c, d) == Run(c, d)
    {
      cur := Reading(t);
      var len := |input|;
      if len >= streamLen {
        var ok := ReadBytes(t, streamLen);
        if !ok { down := true; return true; }
        stop := Finish(t.Abandon?, d);
      } else {
        var ok := ReadBytes(t, len);
        if !ok { down := true; return true; }
        streamLen := streamLen - len;
        stop := true;
      }
    }

    /** Reads a header and, for a DATA frame, its payload. */
    method ReadFrame(d: Dispatch) returns (stop: bool)
      requires !down && cur.NoStream? && |input| >= HEADER_SIZE
      modifies this
      ensures Valid() && |input| < |old(input)|
      ensures var c := Conn(AtHeader, old(ep), old(abandoned), old(input));
        if stop then View() == Run(c, d)
        else !down && cur.NoStream? && Run(View().c, d) == Run(c, d)
    {
      hdr := Decode(input[..HEADER_SIZE]);
      input := input[HEADER_SIZE..];
      if !ValidHeader(hdr) {
        down := true;
        return true;
      }
      if hdr.typ != DATA {
        stop := Finish(false, d);
        return;
      }
      streamLen := hdr.length;
      var target := Abandon;
      if hdr.id in ep.streams {
        target := To(hdr.id);
      } else if streamLen == 0 {
        return false;
      }
      if input == [] {
        cur := Reading(target);
        return true;
      }
      stop := ReadBody(target, d);
    }

    /** Handles everything that can be handled of the bytes that have arrived. */
    method RecvCb(d: Dispatch)
      requires Valid() && !down
      modifies this
      ensures Valid()
      ensures View() == Run(old(View()).c, d)
    {
      while |input| > 0
        invariant Valid() && !down
        invariant Run(View().c, d) == Run(old(View()).c, d)
        decreases |input|, if cur.NoStream? then 0 else 1
      {
        var stop;
        if cur.Reading? {
          stop := ReadBody(cur.target, d);
        } else if |input| < HEADER_SIZE {
          stop := true;
        } else {
          stop := ReadFrame(d);
        }
        if stop { return; }
      }
    }

    /** A chunk arrives and the callback runs. */
    method Arrive(chunk: seq<byte>, d: Dispatch)
      requires Valid() && !down
      modifies this
      ensures Valid()
      ensures View() == Feed(old(View()), chunk, d)
    {
      input := input + chunk;
      RecvCb(d);
    }
  }
}
