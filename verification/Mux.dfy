/** An endpoint of the multiplexer: its stream and client tables, the frames it has
    written to the connection, and the log of data it handed on. */
module Mux {
  import opened Arith
  import opened Wire
  import opened RingBuffers
  import opened Streams

  const PROTO_ERR: u32 := 1

  /** What the endpoint knows of a proxy client: whether its local connection is open and
      whether it speaks SOCKS5. Only a client that does not is asked for the former. */
  datatype Client = Client(hasLocal: bool, socks5: bool)

  /** Bytes of one stream handed to the message handler or to the local connection. */
  datatype Event = Event(id: u32, data: seq<byte>)

  datatype Endpoint = Endpoint(
    streams: map<u32, Stream>,
    clients: map<u32, Client>,
    out: seq<Frame>,
    log: seq<Event>,
    remoteGoAway: bool)

  /** The SOCKS5 handler. From all that was handed on so far, the stream and the length of
      the frame it decides how many bytes to take out of the receive ring and how many to
      report as used. */
  type Socks5 = (seq<Event>, Stream, u32) -> (nat, nat)

  /** Code outside the multiplexer: the message handler, which may change the endpoint in
      any way, and the SOCKS5 handler. */
  datatype Hooks = Hooks(onMessage: (Endpoint, u32, seq<byte>) -> Endpoint, socks5: Socks5)

  /** A message handler that acts later, through other operations, and an arbitrary SOCKS5
      handler. */
  function Quiet(socks5: Socks5): Hooks {
    Hooks((ep, _, _) => ep, socks5)
  }

  datatype Outcome = Live(ep: Endpoint) | Aborted

  function GoAwayFrame(reason: u32): Frame {
    Frame(Header(PROTO_VERSION, GO_AWAY, 0, 0, reason), [])
  }

  function PingAckFrame(pingId: u32): Frame {
    Frame(Header(PROTO_VERSION, PING, ACK, 0, pingId), [])
  }

  function Store(ep: Endpoint, s: Stream): Endpoint {
    ep.(streams := ep.streams[s.id := s])
  }

  function Emit(ep: Endpoint, fs: seq<Frame>): Endpoint {
    ep.(out := ep.out + fs)
  }

  /** Deletes a stream and its client. */
  function DeleteStream(ep: Endpoint, id: u32): Endpoint {
    ep.(streams := ep.streams - {id}, clients := ep.clients - {id})
  }

  /** The bytes of a frame that a client takes from its receive ring and the number it
      reports as used. A ring that holds less than the message handler is promised is an
      assertion failure. */
  datatype Consumption = Consumption(taken: nat, used: nat, message: bool) | Starved

  function Consume(ep: Endpoint, s: Stream, length: u32, h: Hooks): (r: Consumption)
    ensures r.Consumption? ==> r.taken <= |s.rx| && r.used <= length
    ensures length <= |s.rx| ==> r.Consumption?
  {
    if s.id !in ep.clients || (!ep.clients[s.id].hasLocal && !ep.clients[s.id].socks5) then
      if length <= |s.rx| then Consumption(length, length, true) else Starved
    else if ep.clients[s.id].socks5 then
      var (taken, used) := h.socks5(ep.log, s, length);
      Consumption(Min(taken, |s.rx|), Min(used, length), false)
    else
      Consumption(Min(length, |s.rx|), Min(length, |s.rx|), false)
  }

  /** Hands the payload of a frame on and offers the used bytes back as credit. */
  function ProcessBody(ep: Endpoint, s: Stream, length: u32, h: Hooks): Outcome {
    match Consume(ep, s, length, h)
    case Starved => Aborted
    case Consumption(taken, used, message) =>
      var data := s.rx[..taken];
      var s1 := s.(rx := s.rx[taken..]);
      var ep1 := Store(ep, s1).(log := ep.log + [Event(s.id, data)]);
      var ep2 := if message then h.onMessage(ep1, s.id, data) else ep1;
      if s.id !in ep2.streams then Aborted
      else
        var (s2, fs) := SendWindowUpdate(ep2.streams[s.id], used);
        Live(Emit(Store(ep2, s2), fs))
  }

  /** A DATA frame whose payload already sits in the receive ring of `s`. */
  function HandleData(ep: Endpoint, s: Stream, hdr: Header, h: Hooks): Outcome {
    if s.state != Established then
      Live(ep)
    else
      match ProcessFlags(s, hdr.flags)
      case BadFin => Aborted
      case Flagged(s1, remove) =>
        if remove then
          var ep1 := DeleteStream(ep, s.id);
          Live(if hdr.length == 0 then Emit(ep1, [GoAwayFrame(PROTO_ERR)]) else ep1)
        else if hdr.length > s1.recvWindow then
          Live(Emit(Store(ep, s1), [GoAwayFrame(PROTO_ERR)]))
        else
          match ProcessBody(ep, s1.(recvWindow := s1.recvWindow - hdr.length), hdr.length, h)
          case Aborted => Aborted
          case Live(ep1) =>
            Live(if hdr.length == 0 then Emit(ep1, [GoAwayFrame(PROTO_ERR)]) else ep1)
  }

  function HandleWindowUpdate(ep: Endpoint, s: Stream, hdr: Header): Outcome {
    match ProcessFlags(s, hdr.flags)
    case BadFin => Aborted
    case Flagged(s1, remove) =>
      if remove then Live(DeleteStream(ep, s.id))
      else Live(Store(ep, s1.(sendWindow := Wrap(s1.sendWindow + hdr.length))))
  }

  /** Dispatch on a complete frame. */
  function Handle(ep: Endpoint, hdr: Header, h: Hooks): Outcome {
    if hdr.typ > GO_AWAY then
      Aborted
    else if hdr.typ == PING then
      Live(if HasSyn(hdr.flags) then Emit(ep, [PingAckFrame(hdr.length)]) else ep)
    else if hdr.typ == GO_AWAY then
      Live(if hdr.length == 0 then ep.(remoteGoAway := true) else ep)
    else if hdr.id !in ep.streams then
      Live(ep)
    else if hdr.typ == WINDOW_UPDATE then
      HandleWindowUpdate(ep, ep.streams[hdr.id], hdr)
    else
      HandleData(ep, ep.streams[hdr.id], hdr, h)
  }

  /** What a reader needs of a dispatcher. Reading is studied for an arbitrary one. */
  type Dispatch = (Endpoint, Header) -> Outcome

  function Dispatcher(h: Hooks): Dispatch {
    (ep, hdr) => Handle(ep, hdr, h)
  }

  /** A whole frame at once: the reference a chunked reader is compared with. The payload
      goes to the receive ring of its stream, or is dropped when there is none; either
      way it must fit a ring. */
  function HandleFrame(ep: Endpoint, f: Frame, d: Dispatch): Outcome
    requires WellFramed(f)
  {
    if f.hdr.typ != DATA then
      d(ep, f.hdr)
    else if f.hdr.id in ep.streams then
      var s := ep.streams[f.hdr.id];
      if |s.rx| + |f.body| > CAPACITY then Aborted
      else d(ep.(streams := ep.streams[f.hdr.id := s.(rx := s.rx + f.body)]), f.hdr)
    else if |f.body| > CAPACITY then
      Aborted
    else
      Live(ep)
  }

  /** A SOCKS5 client's local connection opens: what its ring holds is handed on. */
  function Flush(ep: Endpoint, id: u32): Endpoint {
    if id !in ep.streams || ep.streams[id].rx == [] then ep
    else
      var s := ep.streams[id];
      ep.(streams := ep.streams[id := s.(rx := [])], log := ep.log + [Event(id, s.rx)])
  }

  /** All bytes of one stream in an event log. */
  function Delivered(log: seq<Event>, id: u32): seq<byte> {
    if log == [] then []
    else Delivered(log[..|log| - 1], id) +
         (if log[|log| - 1].id == id then log[|log| - 1].data else [])
  }
}
