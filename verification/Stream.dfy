/** One multiplexed stream as a value: its lifecycle state, its two flow-control windows
    and the bytes queued in its two rings. */
module Streams {
  import opened Arith
  import opened Wire
  import opened RingBuffers

  const MAX_WINDOW: u32 := 256 * 1024

  datatype State =
    | Init | SynSend | SynReceived | Established | LocalClose | RemoteClose | Closed | Reset

  /** Numeric value of a state. */
  function Ord(s: State): nat {
    match s
    case Init => 0
    case SynSend => 1
    case SynReceived => 2
    case Established => 3
    case LocalClose => 4
    case RemoteClose => 5
    case Closed => 6
    case Reset => 7
  }

  datatype Stream = Stream(
    id: u32, state: State, recvWindow: u32, sendWindow: u32, tx: seq<byte>, rx: seq<byte>)
  {
    predicate Valid() {
      |tx| <= CAPACITY && |rx| <= CAPACITY
    }
  }

  function NewStream(id: u32): (s: Stream) {
    Stream(id, Init, MAX_WINDOW, MAX_WINDOW, [], [])
  }

  // ---------------------------------------------------------------- flags

  datatype Flagged = Flagged(s: Stream, remove: bool) | BadFin

  /** Effect of the flags of an arriving frame; `remove` asks for the stream to be deleted. */
  function ProcessFlags(s: Stream, flags: u16): Flagged {
    if HasAck(flags) then
      Flagged(if s.state == SynSend then s.(state := Established) else s, false)
    else if HasFin(flags) then
      match s.state
      case SynSend | SynReceived | Established => Flagged(s.(state := RemoteClose), false)
      case LocalClose => Flagged(s.(state := Closed), true)
      case _ => BadFin
    else if HasRst(flags) then
      Flagged(s.(state := Reset), true)
    else
      Flagged(s, false)
  }

  /** Flags of the next frame, and the state after sending it. */
  function SendFlags(s: Stream): (Stream, u16) {
    match s.state
    case Init => (s.(state := SynSend), SYN)
    case SynReceived => (s.(state := Established), ACK)
    case _ => (s, 0)
  }

  // ---------------------------------------------------------------- receive window

  function WindowFrame(flags: u16, id: u32, delta: u32): Frame {
    Frame(Header(PROTO_VERSION, WINDOW_UPDATE, flags, id, delta), [])
  }

  /** Credit offered back after `used` bytes were consumed: unsigned 32-bit arithmetic. */
  function WindowDelta(s: Stream, used: u32): u32 {
    Wrap(MAX_WINDOW - used - s.recvWindow)
  }

  function SendWindowUpdate(s: Stream, used: u32): (Stream, seq<Frame>) {
    var delta := WindowDelta(s, used);
    var (s', flags) := SendFlags(s);
    if delta < MAX_WINDOW / 2 && flags == 0 then
      (s', [])
    else
      (s'.(recvWindow := Wrap(s'.recvWindow + delta)), [WindowFrame(flags, s.id, delta)])
  }

  // ---------------------------------------------------------------- sending

  /** What a write does: it returns, or it stops at an assertion because the ring has no
      room, or it reads past the end of the caller's buffer. */
  datatype WriteOutcome =
    | Written(s: Stream, frames: seq<Frame>, ret: u32)
    | NoRoom
    | OverRead

  predicate SendClosed(s: Stream) {
    s.state == LocalClose || s.state == Closed || s.state == Reset
  }

  function DataFrame(flags: u16, id: u32, length: u32, body: seq<byte>): Frame {
    Frame(Header(PROTO_VERSION, DATA, flags, id, length), body)
  }

  function Write(s: Stream, data: seq<byte>): WriteOutcome
    requires |data| < U32_RANGE
  {
    if SendClosed(s) then
      Written(s, [], 0)
    else if s.sendWindow == 0 then
      if |s.tx| + |data| <= CAPACITY then Written(s.(tx := s.tx + data), [], 0) else NoRoom
    else
      var (s1, flags) := SendFlags(s);
      if s.sendWindow < |s.tx| then
        var max := s.sendWindow;
        if |s.tx| - max + |data| > CAPACITY then NoRoom
        else Written(s1.(tx := s.tx[max..] + data, sendWindow := 0),
                     [DataFrame(flags, s.id, max, s.tx[..max])], max)
      else if s.sendWindow < Wrap(|s.tx| + |data|) then
        // The ring size is read again after the ring was drained, so the split point
        // in `data` is the whole window, not the window less the drained bytes.
        var max := s.sendWindow;
        if max > |data| then OverRead
        else if |data| - max > CAPACITY then NoRoom
        else Written(s1.(tx := data[max..], sendWindow := 0),
                     [DataFrame(flags, s.id, max, s.tx + data[..max])], max)
      else
        var max := Wrap(|s.tx| + |data|);
        Written(s1.(tx := [], sendWindow := s.sendWindow - max),
                [DataFrame(flags, s.id, max, s.tx + data)], max)
  }

  /** The branch of a write that goes wrong: a non-empty ring that fits the window, new
      data that does not fit behind it. A buffer within 32 KiB of 4 GiB that overflows
      the 32-bit sum goes wrong too. */
  predicate MisSplits(s: Stream, n: nat) {
    && !SendClosed(s)
    && 0 < s.sendWindow
    && |s.tx| <= s.sendWindow
    && (|s.tx| + n >= U32_RANGE || (s.tx != [] && s.sendWindow < |s.tx| + n))
  }

  /** Bytes sent by a sequence of frames, headers apart. */
  function Payload(fs: seq<Frame>): seq<byte> {
    if fs == [] then [] else fs[0].body + Payload(fs[1..])
  }

  function Leftover(s: Stream, n: nat): int {
    |s.tx| + n - Min(s.sendWindow, |s.tx| + n)
  }

  /** A faithful write sends a prefix of ring contents plus data, as long as the window
      allows, in one frame whose header declares exactly that prefix, keeps the rest in
      the ring and pays for every byte sent out of the window. */
  predicate Faithful(s: Stream, data: seq<byte>, w: WriteOutcome) {
    && w.Written?
    && (forall f <- w.frames :: WellFramed(f) && f.hdr.id == s.id)
    && |Payload(w.frames)| == Min(s.sendWindow, |s.tx| + |data|)
    && w.s.Valid() && w.s.id == s.id
    && Accounts(s, data, w.s, Payload(w.frames))
  }

  /** `sent` and the new ring make up the old ring and the data; the window pays for `sent`
      and the receiving side is untouched. */
  predicate Accounts(s: Stream, data: seq<byte>, s': Stream, sent: seq<byte>) {
    && sent + s'.tx == s.tx + data
    && s'.sendWindow == s.sendWindow - |sent|
    && s'.rx == s.rx && s'.recvWindow == s.recvWindow
  }

  lemma PayloadOne(f: Frame)
    ensures Payload([f]) == f.body
  {
    assert [f][1..] == [];
    assert f.body + [] == f.body;
  }

  /** A write on an open stream with room for what the window leaves over is faithful
      exactly outside the mis-splitting branch. */
  lemma WriteFaithfulIff(s: Stream, data: seq<byte>)
    requires s.Valid() && |data| < U32_RANGE
    requires !SendClosed(s)
    requires Leftover(s, |data|) <= CAPACITY
    ensures Faithful(s, data, Write(s, data)) <==> !MisSplits(s, |data|)
  {
    var w := Write(s, data);
    if w.Written? && w.frames != [] {
      PayloadOne(w.frames[0]);
      assert w.frames == [w.frames[0]];
      assert w.frames[0] in w.frames;
      if s.sendWindow < |s.tx| {
        assert s.tx[..s.sendWindow] + (s.tx[s.sendWindow..] + data) == s.tx + data;
      }
    }
  }

  /** Without room, an open stream that does not mis-split stops at the ring assertion. */
  lemma WriteNoRoomIff(s: Stream, data: seq<byte>)
    requires s.Valid() && |data| < U32_RANGE
    requires !SendClosed(s) && !MisSplits(s, |data|)
    ensures Write(s, data) == NoRoom <==> Leftover(s, |data|) > CAPACITY
  {
  }

  /** A concrete mis-split: one byte waiting, window 1, one new byte. The header
      declares one byte and two are sent. */
  lemma MisSplitExample()
    ensures
      var s := Stream(1, Established, MAX_WINDOW, 1, [7], []);
      var w := Write(s, [9]);
      && w.Written?
      && w.frames == [DataFrame(0, 1, 1, [7, 9])]
      && !WellFramed(w.frames[0])
  {
    assert [7] + [9][..1] == [7, 9];
  }

  // ---------------------------------------------------------------- closing

  datatype CloseOutcome = CloseOutcome(s: Stream, frames: seq<Frame>, remove: bool, ret: u32)

  /** `remove` asks for the stream to be deleted. */
  function Close(s: Stream): CloseOutcome {
    match s.state
    case SynSend | SynReceived | Established =>
      var (s', flags) := SendFlags(s.(state := LocalClose));
      CloseOutcome(s', [WindowFrame(WithFin(flags), s.id, 0)], false, 1)
    case LocalClose | RemoteClose =>
      var (s', flags) := SendFlags(s.(state := Closed));
      CloseOutcome(s', [WindowFrame(WithFin(flags), s.id, 0)], true, 0)
    case _ =>
      CloseOutcome(s, [], false, 0)
  }
}
