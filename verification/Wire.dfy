/** The 12-byte frame header of the TCP multiplexer and the frames it starts. */
module Wire {
  type byte = x: int | 0 <= x < 0x100
  type u16 = x: int | 0 <= x < 0x1_0000
  type u32 = x: int | 0 <= x < 0x1_0000_0000

  const U32_RANGE := 0x1_0000_0000

  /** Unsigned 32-bit arithmetic: the value modulo 2^32. */
  function Wrap(x: int): (r: u32) {
    x % U32_RANGE
  }

  // Frame types
  const DATA: byte := 0
  const WINDOW_UPDATE: byte := 1
  const PING: byte := 2
  const GO_AWAY: byte := 3

  const PROTO_VERSION: byte := 0
  const HEADER_SIZE := 12

  // Flag bits
  const SYN: u16 := 1
  const ACK: u16 := 2
  const FIN: u16 := 4

  predicate HasSyn(flags: u16) { flags % 2 == 1 }
  predicate HasAck(flags: u16) { flags / 2 % 2 == 1 }
  predicate HasFin(flags: u16) { flags / 4 % 2 == 1 }
  predicate HasRst(flags: u16) { flags / 8 % 2 == 1 }

  /** `flags | FIN` */
  function WithFin(flags: u16): u16 {
    if HasFin(flags) then flags else flags + FIN
  }

  datatype Header = Header(version: byte, typ: byte, flags: u16, id: u32, length: u32)

  /** The check made on every header that arrives. */
  predicate ValidHeader(h: Header) {
    h.version == PROTO_VERSION && h.typ <= GO_AWAY
  }

  /** Big-endian 16- and 32-bit values. */
  function Half(b0: byte, b1: byte): u16 {
    b0 as int * 0x100 + b1
  }

  function Word(b0: byte, b1: byte, b2: byte, b3: byte): u32 {
    Half(b0, b1) as int * 0x1_0000 + Half(b2, b3)
  }

  function Encode(h: Header): (r: seq<byte>)
    ensures |r| == HEADER_SIZE
  {
    var idHigh, idLow := h.id / 0x1_0000, h.id % 0x1_0000;
    var lenHigh, lenLow := h.length / 0x1_0000, h.length % 0x1_0000;
    [h.version, h.typ, h.flags / 0x100, h.flags % 0x100,
     idHigh / 0x100, idHigh % 0x100, idLow / 0x100, idLow % 0x100,
     lenHigh / 0x100, lenHigh % 0x100, lenLow / 0x100, lenLow % 0x100]
  }

  function Decode(b: seq<byte>): Header
    requires |b| == HEADER_SIZE
  {
    Header(b[0], b[1], Half(b[2], b[3]), Word(b[4], b[5], b[6], b[7]), Word(b[8], b[9], b[10], b[11]))
  }

  lemma HalfRoundTrip(n: u16)
    ensures Half(n / 0x100, n % 0x100) == n
  {
  }

  /** Header encoding is a bijection between headers and 12-byte strings. */
  lemma DecodeEncode(h: Header)
    ensures Decode(Encode(h)) == h
  {
    HalfRoundTrip(h.id / 0x1_0000);
    HalfRoundTrip(h.id % 0x1_0000);
    HalfRoundTrip(h.length / 0x1_0000);
    HalfRoundTrip(h.length % 0x1_0000);
  }

  lemma HalfUnique(b0: byte, b1: byte)
    ensures Half(b0, b1) / 0x100 == b0 && Half(b0, b1) % 0x100 == b1
  {
  }

  lemma WordUnique(b0: byte, b1: byte, b2: byte, b3: byte)
    ensures Word(b0, b1, b2, b3) / 0x1_0000 == Half(b0, b1)
    ensures Word(b0, b1, b2, b3) % 0x1_0000 == Half(b2, b3)
  {
  }

  lemma EncodeDecode(b: seq<byte>)
    requires |b| == HEADER_SIZE
    ensures Encode(Decode(b)) == b
  {
    HalfUnique(b[2], b[3]);
    WordUnique(b[4], b[5], b[6], b[7]);
    HalfUnique(b[4], b[5]);
    HalfUnique(b[6], b[7]);
    WordUnique(b[8], b[9], b[10], b[11]);
    HalfUnique(b[8], b[9]);
    HalfUnique(b[10], b[11]);
  }

  /** The big-endian value of four bytes. */
  function BigEndian32(b: seq<byte>): int
    requires |b| == 4
  {
    b[0] as int * 0x100_0000 + b[1] as int * 0x1_0000 + b[2] as int * 0x100 + b[3]
  }

  /** Every field is in its place, most significant byte first. */
  lemma EncodeLayout(h: Header)
    ensures var b := Encode(h);
      && b[0] == h.version && b[1] == h.typ && b[2] as int * 0x100 + b[3] == h.flags
      && BigEndian32(b[4..8]) == h.id && BigEndian32(b[8..12]) == h.length
  {
    var b := Encode(h);
    assert b[4..8] == [b[4], b[5], b[6], b[7]] && b[8..12] == [b[8], b[9], b[10], b[11]];
  }

  /** The numbers of versions, types and flags, in the first frame of stream 1, the answer to
      a ping, and a frame that ends stream 3. */
  lemma EncodeExamples()
    ensures Encode(Header(PROTO_VERSION, WINDOW_UPDATE, SYN, 1, 0)) == [0, 1, 0, 1, 0, 0, 0, 1, 0, 0, 0, 0]
    ensures Encode(Header(PROTO_VERSION, PING, ACK, 0, 7)) == [0, 2, 0, 2, 0, 0, 0, 0, 0, 0, 0, 7]
    ensures Encode(Header(PROTO_VERSION, DATA, WithFin(0), 3, 0x1_0002)) == [0, 0, 0, 4, 0, 0, 0, 3, 0, 1, 0, 2]
    ensures Encode(Header(PROTO_VERSION, GO_AWAY, 0, 0, 1)) == [0, 3, 0, 0, 0, 0, 0, 0, 0, 0, 0, 1]
  {
  }

  function Bit(b: bool): nat { if b then 1 else 0 }

  /** The four flags are the four lowest bits, in this order. */
  lemma FlagBits(syn: bool, ack: bool, fin: bool, rst: bool, more: nat)
    requires more < 0x1000
    ensures var flags := Bit(syn) + 2 * Bit(ack) + 4 * Bit(fin) + 8 * Bit(rst) + 16 * more;
      && (HasSyn(flags) <==> syn) && (HasAck(flags) <==> ack) && (HasFin(flags) <==> fin) && (HasRst(flags) <==> rst)
      && WithFin(flags) == Bit(syn) + 2 * Bit(ack) + 4 + 8 * Bit(rst) + 16 * more
  {
    var flags := Bit(syn) + 2 * Bit(ack) + 4 * Bit(fin) + 8 * Bit(rst) + 16 * more;
    Halve(flags, 2 * (2 * (2 * more + Bit(rst)) + Bit(fin)) + Bit(ack), syn);
    Halve(flags / 2, 2 * (2 * more + Bit(rst)) + Bit(fin), ack);
    Halve(flags / 2 / 2, 2 * more + Bit(rst), fin);
    Halve(flags / 2 / 2 / 2, more, rst);
    Halvings(flags);
  }

  lemma Halve(x: nat, half: nat, b: bool)
    requires x == 2 * half + Bit(b)
    ensures x / 2 == half && x % 2 == Bit(b)
  {
  }

  lemma Halvings(x: nat)
    ensures x / 4 == x / 2 / 2 && x / 8 == x / 2 / 2 / 2
  {
  }

  /** A header together with the payload bytes written after it. */
  datatype Frame = Frame(hdr: Header, body: seq<byte>)

  /** The header declares exactly the payload that follows: the number of bytes
      a reader takes as the body of this frame. */
  predicate WellFramed(f: Frame) {
    && ValidHeader(f.hdr)
    && |f.body| == if f.hdr.typ == DATA then f.hdr.length else 0
  }

  function FrameBytes(f: Frame): seq<byte> {
    Encode(f.hdr) + f.body
  }

  function Bytes(fs: seq<Frame>): seq<byte> {
    if fs == [] then [] else FrameBytes(fs[0]) + Bytes(fs[1..])
  }
}
