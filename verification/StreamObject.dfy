/** The stream as the program holds it: an object with two rings, updated in place, each
    operation tied to the value model. */
module StreamObjects {
  import opened Seqs
  import opened Wire
  import opened RingBuffers
  import opened Streams

  /** The output side of a connection. */
  class Output {
    var bytes: seq<byte>

    constructor ()
      ensures bytes == []
    {
      bytes := [];
    }
  }

  class StreamObject {
    const id: u32
    var state: State
    var recvWindow: u32
    var sendWindow: u32
    const txRing: RingBuffer
    const rxRing: RingBuffer

    ghost predicate Valid()
      reads this, txRing, rxRing
    {
      && txRing != rxRing && txRing.data != rxRing.data
      && txRing.Valid() && rxRing.Valid()
    }

    ghost function View(): Stream
      requires Valid()
      reads this, txRing, rxRing, txRing.data, rxRing.data
    {
      Stream(id, state, recvWindow, sendWindow, txRing.Contents(), rxRing.Contents())
    }

    constructor (id: u32)
      ensures Valid() && fresh(txRing) && fresh(rxRing) && fresh(txRing.data) && fresh(rxRing.data)
      ensures View() == NewStream(id)
    {
      this.id := id;
      state := Init;
      recvWindow, sendWindow := MAX_WINDOW, MAX_WINDOW;
      txRing := new RingBuffer();
      rxRing := new RingBuffer();
    }

    method GetSendFlags() returns (flags: u16)
      requires Valid()
      modifies this`state
      ensures Valid()
      ensures (View(), flags) == SendFlags(old(View()))
    {
      flags := 0;
      match state {
        case Init =>
          flags := SYN;
          state := SynSend;
        case SynReceived =>
          flags := ACK;
          state := Established;
        case _ =>
      }
    }

    /** `ok` is false for a FIN that the state does not allow. */
    method ApplyFlags(flags: u16) returns (ok: bool, remove: bool)
      requires Valid()
      modifies this`state
      ensures Valid()
      ensures ok <==> ProcessFlags(old(View()), flags) != BadFin
      ensures ok ==> ProcessFlags(old(View()), flags) == Flagged(View(), remove)
    {
      ok, remove := true, false;
      if HasAck(flags) {
        if state == SynSend {
          state := Established;
        }
      } else if HasFin(flags) {
        match state {
          case SynSend => state := RemoteClose;
          case SynReceived => state := RemoteClose;
          case Established => state := RemoteClose;
          case LocalClose =>
            state := Closed;
            remove := true;
          case _ => ok := false;
        }
      } else if HasRst(flags) {
        state := Reset;
        remove := true;
      }
    }

    method UpdateWindow(out: Output, used: u32)
      requires Valid()
      modifies this`state, this`recvWindow, out
      ensures Valid()
      ensures var (s, fs) := SendWindowUpdate(old(View()), used);
        View() == s && out.bytes == old(out.bytes) + Bytes(fs)
    {
      var delta := Wrap(MAX_WINDOW - used - recvWindow);
      var flags := GetSendFlags();
      if delta < MAX_WINDOW / 2 && flags == 0 {
        return;
      }
      recvWindow := Wrap(recvWindow + delta);
      out.bytes := out.bytes + Encode(Header(PROTO_VERSION, WINDOW_UPDATE, flags, id, delta));
      BytesOne(WindowFrame(flags, id, delta));
    }

    method SendDataHeader(out: Output, flags: u16, length: u32)
      modifies out
      ensures out.bytes == old(out.bytes) + Encode(Header(PROTO_VERSION, DATA, flags, id, length))
    {
      out.bytes := out.bytes + Encode(Header(PROTO_VERSION, DATA, flags, id, length));
    }

    /** The window does not even cover the ring: send from the ring, queue the data. */
    method WriteFromRing(out: Output, flags: u16, max: u32, data: seq<byte>)
      requires Valid() && max <= txRing.sz && txRing.sz - max + |data| <= CAPACITY
      modifies txRing, txRing.data, out
      ensures Valid()
      ensures txRing.Contents() == old(txRing.Contents())[max..] + data
      ensures out.bytes == old(out.bytes)
                + FrameBytes(DataFrame(flags, id, max, old(txRing.Contents())[..max]))
    {
      ghost var start, queued := out.bytes, txRing.Contents();
      SendDataHeader(out, flags, max);
      var bytes, _ := txRing.Write(out.bytes, max);
      out.bytes := bytes;
      Assoc(start, Encode(Header(PROTO_VERSION, DATA, flags, id, max)), queued[..max]);
      var _ := txRing.Append(data);
    }

    /** The window ends inside the data. The ring size is read again after the ring has
        been drained. */
    method WriteAcross(out: Output, flags: u16, max: u32, data: seq<byte>)
      requires Valid() && max <= |data| && |data| - max <= CAPACITY
      modifies txRing, txRing.data, out
      ensures Valid()
      ensures txRing.Contents() == data[max..]
      ensures out.bytes == old(out.bytes)
                + FrameBytes(DataFrame(flags, id, max, old(txRing.Contents()) + data[..max]))
    {
      ghost var start, queued := out.bytes, txRing.Contents();
      ghost var header := Encode(Header(PROTO_VERSION, DATA, flags, id, max));
      SendDataHeader(out, flags, max);
      DrainRing(out);
      var split := max - txRing.sz;
      out.bytes := out.bytes + data[..split];
      Assoc(start + header, queued, data[..split]);
      Assoc(start, header, queued + data[..split]);
      var _ := txRing.Append(data[split..]);
    }

    /** The window covers everything. */
    method WriteWhole(out: Output, flags: u16, max: u32, data: seq<byte>)
      requires Valid()
      modifies txRing, out
      ensures Valid()
      ensures txRing.Contents() == []
      ensures out.bytes == old(out.bytes)
                + FrameBytes(DataFrame(flags, id, max, old(txRing.Contents()) + data))
    {
      ghost var start, queued := out.bytes, txRing.Contents();
      ghost var header := Encode(Header(PROTO_VERSION, DATA, flags, id, max));
      SendDataHeader(out, flags, max);
      DrainRing(out);
      out.bytes := out.bytes + data;
      Assoc(start + header, queued, data);
      Assoc(start, header, queued + data);
    }

    method DrainRing(out: Output)
      requires Valid()
      modifies txRing, out
      ensures Valid()
      ensures txRing.Contents() == []
      ensures out.bytes == old(out.bytes) + old(txRing.Contents())
    {
      if txRing.sz > 0 {
        var bytes, _ := txRing.Write(out.bytes, txRing.sz);
        out.bytes := bytes;
      }
    }

    /** One DATA frame, as the value model `v` of the stream says. */
    method SendData(out: Output, flags: u16, data: seq<byte>, ghost v: Stream) returns (max: u32)
      requires Valid() && |data| < U32_RANGE
      requires !SendClosed(v) && v.sendWindow == sendWindow > 0 && v.tx == txRing.Contents() && v.id == id
      requires flags == SendFlags(v).1 && Streams.Write(v, data).Written?
      modifies txRing, txRing.data, out
      ensures Valid()
      ensures var w := Streams.Write(v, data);
        && txRing.Contents() == w.s.tx && max == w.ret <= sendWindow
        && out.bytes == old(out.bytes) + FrameBytes(w.frames[0])
    {
      if sendWindow < txRing.sz {
        max := sendWindow;
        WriteFromRing(out, flags, max, data);
      } else if sendWindow < Wrap(txRing.sz + |data|) {
        max := sendWindow;
        WriteAcross(out, flags, max, data);
      } else {
        max := Wrap(txRing.sz + |data|);
        WriteWhole(out, flags, max, data);
      }
    }

    /** The program asserts room in the ring; a write that would over-read the caller's
        buffer has no defined result. */
    method Write(out: Output, data: seq<byte>) returns (ret: u32)
      requires Valid()
      requires |data| < U32_RANGE
      requires Streams.Write(View(), data).Written?
      modifies this`state, this`sendWindow, txRing, txRing.data, out
      ensures Valid()
      ensures var w := Streams.Write(old(View()), data);
        && View() == w.s && ret == w.ret
        && out.bytes == old(out.bytes) + Bytes(w.frames)
    {
      if state == LocalClose || state == Closed || state == Reset {
        return 0;
      }
      if sendWindow == 0 {
        var _ := txRing.Append(data);
        return 0;
      }
      ghost var v := View();
      BytesOne(Streams.Write(v, data).frames[0]);
      var flags := GetSendFlags();
      ret := SendData(out, flags, data, v);
      sendWindow := sendWindow - ret;
    }

    /** `remove` asks the caller to delete the stream. */
    method Close(out: Output) returns (ret: u32, remove: bool)
      requires Valid()
      modifies this`state, out
      ensures Valid()
      ensures var c := Streams.Close(old(View()));
        && View() == c.s && ret == c.ret && remove == c.remove
        && out.bytes == old(out.bytes) + Bytes(c.frames)
    {
      remove := false;
      match state {
        case SynSend => state := LocalClose;
        case SynReceived => state := LocalClose;
        case Established => state := LocalClose;
        case LocalClose =>
          remove := true;
          state := Closed;
        case RemoteClose =>
          remove := true;
          state := Closed;
        case _ => return 0, false;
      }
      var flags := GetSendFlags();
      flags := WithFin(flags);
      out.bytes := out.bytes + Encode(Header(PROTO_VERSION, WINDOW_UPDATE, flags, id, 0));
      BytesOne(WindowFrame(flags, id, 0));
      ret := if remove then 0 else 1;
    }
  }

  lemma BytesOne(f: Frame)
    ensures Bytes([f]) == FrameBytes(f)
    ensures f.body == [] ==> Bytes([f]) == Encode(f.hdr)
  {
    assert [f][1..] == [];
    assert Bytes([f]) == FrameBytes(f) + [];
  }
}
