/** What a string literal means by section 7 of RFC 8259, and what the tokener makes of it. */
module JsonEscapes {
  import opened JsonValues
  import opened JsonTokener
  import opened JsonRoundTrip
  import opened Utf8Text

  // ---------------------------------------------------------------- literals

  /** A literal is a sequence of raw characters, short escapes and \u escapes. */
  datatype Piece = Raw(b: string) | Short(e: char) | Code(h: string)

  function ShortValue(e: char): char {
    match e
    case 'b' => '\U{8}'
    case 'f' => '\U{c}'
    case 'n' => '\n'
    case 'r' => '\r'
    case 't' => '\t'
    case _ => e
  }

  predicate ValidPiece(p: Piece) {
    match p
    case Raw(b) => b != [] && forall i :: 0 <= i < |b| ==> b[i] != '\\' && b[i] != NUL
    case Short(e) => e in {'"', '\\', '/', 'b', 'f', 'n', 'r', 't'}
    case Code(h) => FourHex(h)
  }

  predicate Valid(ps: seq<Piece>) {
    forall i :: 0 <= i < |ps| ==> ValidPiece(ps[i])
  }

  /** The literal does not hold the quote that ends it. */
  predicate Inside(ps: seq<Piece>, quote: char) {
    forall i :: 0 <= i < |ps| ==> ps[i].Raw? ==> quote !in ps[i].b
  }

  /** The raw characters are whole characters of UTF-8. */
  predicate RawUtf8(ps: seq<Piece>) {
    forall i :: 0 <= i < |ps| ==> ps[i].Raw? ==> CharLength(ps[i].b) == |ps[i].b|
  }

  function PieceText(p: Piece): string {
    match p
    case Raw(b) => b
    case Short(e) => ['\\', e]
    case Code(h) => "\\u" + h
  }

  function Text(ps: seq<Piece>): string {
    if ps == [] then [] else PieceText(ps[0]) + Text(ps[1..])
  }

  // ---------------------------------------------------------------- what it means

  predicate HighHalf(u: nat) { 0xD800 <= u < 0xDC00 }

  predicate LowHalf(u: nat) { 0xDC00 <= u < 0xE000 }

  /** The character that two halves stand for. */
  function PairValue(hi: nat, lo: nat): (u: nat)
    requires HighHalf(hi) && LowHalf(lo)
    ensures 0x10000 <= u < 0x110000
  {
    0x10000 + (hi - 0xD800) * 0x400 + (lo - 0xDC00)
  }

  function CodeValue(p: Piece): (v: nat)
    requires ValidPiece(p) && p.Code?
    ensures v < 0x10000
  {
    FourHexValue(p.h)
  }

  /** Four hex digits in either case denote their number, each by its place. */
  lemma HexPlaces(d: seq<nat>, upper: seq<bool>)
    requires |d| == |upper| == 4 && forall i :: 0 <= i < 4 ==> d[i] < 16
    ensures var h := seq(4, i requires 0 <= i < 4 =>
        (if upper[i] then "0123456789ABCDEF" else "0123456789abcdef")[d[i]]);
      FourHex(h) && FourHexValue(h) == ((d[0] * 16 + d[1]) * 16 + d[2]) * 16 + d[3]
  {
    var h := seq(4, i requires 0 <= i < 4 =>
      (if upper[i] then "0123456789ABCDEF" else "0123456789abcdef")[d[i]]);
    forall i | 0 <= i < 4 ensures IsHex(h[i]) && HexValue(h[i]) == d[i] {
      HexDigit(d[i], upper[i]);
    }
  }

  lemma HexDigit(d: nat, upper: bool)
    requires d < 16
    ensures var c := (if upper then "0123456789ABCDEF" else "0123456789abcdef")[d]; IsHex(c) && HexValue(c) == d
  {
  }

  /** No other character is a hex digit. */
  lemma HexOnly(c: char)
    requires IsHex(c)
    ensures c in "0123456789ABCDEFabcdef"
  {
    var s := "0123456789ABCDEFabcdef";
    var i := if IsDigit(c) then HexValue(c) else if c <= 'F' then HexValue(c) else HexValue(c) + 6;
    assert s[i] == c;
  }

  /** The two halves of a character beyond U+FFFF, as RFC 8259 has them encoded, stand for it. */
  lemma PairEncodes(u: nat)
    requires 0x10000 <= u < 0x110000
    ensures var hi, lo := 0xD800 + (u - 0x10000) / 0x400, 0xDC00 + (u - 0x10000) % 0x400;
      HighHalf(hi) && LowHalf(lo) && PairValue(hi, lo) == u
  {
  }

  /** The first two pieces are a pair of halves. */
  predicate StartsWithPair(ps: seq<Piece>)
    requires Valid(ps)
  {
    && |ps| >= 2 && ps[0].Code? && HighHalf(CodeValue(ps[0]))
    && ps[1].Code? && LowHalf(CodeValue(ps[1]))
  }

  /** Halves without a partner become U+FFFD. */
  function Meaning(ps: seq<Piece>): string
    requires Valid(ps)
    decreases |ps|
  {
    if ps == [] then ""
    else if StartsWithPair(ps) then
      Utf8(PairValue(CodeValue(ps[0]), CodeValue(ps[1]))) + Meaning(ps[2..])
    else Single(ps[0]) + Meaning(ps[1..])
  }

  function Single(p: Piece): string
    requires ValidPiece(p)
  {
    match p
    case Raw(b) => b
    case Short(e) => [ShortValue(e)]
    case Code(_) => if Scalar(CodeValue(p)) then Utf8(CodeValue(p)) else REPLACEMENT
  }

  // ---------------------------------------------------------------- what the tokener makes of it

  /** A high half that has been read and turns out to have no partner. */
  function Lost(high: nat): string {
    if high != 0 then REPLACEMENT else ""
  }

  function Combined(high: nat, v: nat): (u: nat)
    requires v < 0x10000 && (high == 0 || IsHighSurrogate(high))
    ensures u < 0x110000
    ensures u == v || u >= 0x10000
  {
    Low16Mod(high);
    if high != 0 && IsLowSurrogate(v) then DecodePair(high, v) else v
  }

  /** What is written for a value that is not kept as a high half. */
  function Written(u: nat): string
    requires u < 0x110000
  {
    if IsLowSurrogate(u) then REPLACEMENT else Utf8(u)
  }

  /** The text so far, with `high` kept from the piece before. */
  function Machine(ps: seq<Piece>, high: nat): string
    requires Valid(ps) && (high == 0 || IsHighSurrogate(high))
    decreases |ps|
  {
    if ps == [] then Lost(high)
    else if !ps[0].Code? then Lost(high) + (Single(ps[0]) + Machine(ps[1..], 0))
    else
      var v := CodeValue(ps[0]);
      var u := Combined(high, v);
      (if high != 0 && IsLowSurrogate(v) then "" else Lost(high)) +
      (if IsHighSurrogate(u) then Machine(ps[1..], u) else Written(u) + Machine(ps[1..], 0))
  }

  lemma {:induction false} Low16Mod(u: nat)
    ensures Low16(u) == u % 0x10000
    decreases u
  {
    if u >= 0x10000 {
      Low16Mod(u - 0x10000);
    }
  }

  // ---------------------------------------------------------------- pairs that go wrong

  /** The pair stands for a character U+nD800 to U+nDFFF of a supplementary plane. */
  predicate Clash(hi: nat) {
    HighHalf(hi) && ((hi - 0xD800) % 64 == 54 || (hi - 0xD800) % 64 == 55)
  }

  lemma PairLow16(hi: nat, lo: nat)
    requires HighHalf(hi) && LowHalf(lo)
    ensures Low16(PairValue(hi, lo)) == (hi - 0xD800) % 64 * 0x400 + (lo - 0xDC00)
    ensures Combined(hi, lo) == PairValue(hi, lo)
  {
    Low16Mod(PairValue(hi, lo));
    var q, r := (hi - 0xD800) / 64, (hi - 0xD800) % 64;
    assert PairValue(hi, lo) == 0x10000 * (1 + q) + (r * 0x400 + (lo - 0xDC00));
  }

  /** The value of a pair is taken for half of another pair exactly when the pair clashes,
      whatever its low half. */
  lemma ClashIff(hi: nat, lo: nat)
    requires HighHalf(hi) && LowHalf(lo)
    ensures IsHighSurrogate(PairValue(hi, lo)) || IsLowSurrogate(PairValue(hi, lo)) <==> Clash(hi)
  {
    PairLow16(hi, lo);
  }

  /** Some pair of the literal clashes. */
  predicate Clashes(ps: seq<Piece>)
    requires Valid(ps)
    decreases |ps|
  {
    if ps == [] then false
    else if StartsWithPair(ps) then
      Clash(CodeValue(ps[0])) || Clashes(ps[2..])
    else Clashes(ps[1..])
  }

  // ---------------------------------------------------------------- always UTF-8

  lemma SingleWellFormed(p: Piece)
    requires ValidPiece(p) && (p.Raw? ==> CharLength(p.b) == |p.b|)
    ensures WellFormed(Single(p))
  {
    match p
    case Raw(b) => assert b[|b|..] == [];
    case Short(e) => assert [ShortValue(e)][1..] == [];
    case Code(_) =>
      ReplacementWellFormed();
      if Scalar(CodeValue(p)) { Utf8WellFormed(CodeValue(p)); }
  }

  lemma WrittenWellFormed(u: nat)
    requires u < 0x110000 && !IsHighSurrogate(u)
    ensures WellFormed(Written(u))
  {
    ReplacementWellFormed();
    Low16Mod(u);
    if !IsLowSurrogate(u) { Utf8WellFormed(u); }
  }

  /** Whatever the escapes, and even where pairs clash, what is read is well-formed UTF-8 if
      the raw characters are. */
  lemma {:induction false} MachineWellFormed(ps: seq<Piece>, high: nat)
    requires Valid(ps) && RawUtf8(ps) && (high == 0 || IsHighSurrogate(high))
    ensures WellFormed(Machine(ps, high))
    decreases |ps|
  {
    ReplacementWellFormed();
    if ps == [] {
    } else if !ps[0].Code? {
      SingleWellFormed(ps[0]);
      MachineWellFormed(ps[1..], 0);
      WellFormedAppend(Single(ps[0]), Machine(ps[1..], 0));
      WellFormedAppend(Lost(high), Single(ps[0]) + Machine(ps[1..], 0));
    } else {
      var v := CodeValue(ps[0]);
      var u := Combined(high, v);
      var front := if high != 0 && IsLowSurrogate(v) then "" else Lost(high);
      if IsHighSurrogate(u) {
        MachineWellFormed(ps[1..], u);
        WellFormedAppend(front, Machine(ps[1..], u));
      } else {
        WrittenWellFormed(u);
        MachineWellFormed(ps[1..], 0);
        WellFormedAppend(Written(u), Machine(ps[1..], 0));
        WellFormedAppend(front, Written(u) + Machine(ps[1..], 0));
      }
    }
  }

  // ---------------------------------------------------------------- right unless a pair clashes

  lemma HalvesLow16(v: nat)
    requires v < 0x10000
    ensures IsHighSurrogate(v) <==> HighHalf(v)
    ensures IsLowSurrogate(v) <==> LowHalf(v)
  {
  }

  /** A kept high half without a partner is replaced, and the rest read as if it had not
      been there. */
  lemma LoseHigh(ps: seq<Piece>, high: nat)
    requires Valid(ps) && IsHighSurrogate(high) && high != 0
    requires ps == [] || !ps[0].Code? || !LowHalf(CodeValue(ps[0]))
    ensures Machine(ps, high) == REPLACEMENT + Machine(ps, 0)
  {
    if ps == [] {
      assert REPLACEMENT + "" == REPLACEMENT;
    } else if !ps[0].Code? {
      var m := Single(ps[0]) + Machine(ps[1..], 0);
      assert "" + m == m;
    } else {
      var v := CodeValue(ps[0]);
      HalvesLow16(v);
      var m := if IsHighSurrogate(v) then Machine(ps[1..], v) else Written(v) + Machine(ps[1..], 0);
      assert Machine(ps, 0) == "" + m == m;
    }
  }

  /** One piece that does not begin a pair. */
  lemma MachineSingle(ps: seq<Piece>)
    requires Valid(ps) && ps != [] && !StartsWithPair(ps)
    ensures Machine(ps, 0) == Single(ps[0]) + Machine(ps[1..], 0)
  {
    var rest := ps[1..];
    if !ps[0].Code? {
      var m := Single(ps[0]) + Machine(rest, 0);
      assert "" + m == m;
    } else {
      var v := CodeValue(ps[0]);
      HalvesLow16(v);
      if HighHalf(v) {
        assert Machine(ps, 0) == "" + Machine(rest, v) == Machine(rest, v);
        LoseHigh(rest, v);
      } else {
        assert Machine(ps, 0) == "" + (Written(v) + Machine(rest, 0)) == Written(v) + Machine(rest, 0);
      }
    }
  }

  /** Two pieces that are a pair. */
  lemma MachinePair(ps: seq<Piece>)
    requires Valid(ps) && StartsWithPair(ps)
    ensures var u := PairValue(CodeValue(ps[0]), CodeValue(ps[1]));
      Machine(ps, 0) == if IsHighSurrogate(u) then Machine(ps[2..], u) else Written(u) + Machine(ps[2..], 0)
  {
    var hi, lo := CodeValue(ps[0]), CodeValue(ps[1]);
    HalvesLow16(hi);
    HalvesLow16(lo);
    PairLow16(hi, lo);
    var u := PairValue(hi, lo);
    assert Machine(ps, 0) == "" + Machine(ps[1..], hi) == Machine(ps[1..], hi);
    assert ps[1..][1..] == ps[2..];
    var m := if IsHighSurrogate(u) then Machine(ps[2..], u) else Written(u) + Machine(ps[2..], 0);
    assert Machine(ps[1..], hi) == "" + m == m;
  }

  /** While a clashing value is kept, no value that clashes is written first. */
  lemma {:induction false} KeptOutput(ps: seq<Piece>, high: nat) returns (w: nat)
    requires Valid(ps) && IsHighSurrogate(high) && high != 0
    ensures if w == 0 then REPLACEMENT <= Machine(ps, high)
            else && 0x10000 <= w < 0x110000 && !IsHighSurrogate(w) && !IsLowSurrogate(w)
                 && Utf8(w) <= Machine(ps, high)
    decreases |ps|
  {
    w := 0;
    if ps != [] && ps[0].Code? && LowHalf(CodeValue(ps[0])) {
      var v := CodeValue(ps[0]);
      HalvesLow16(v);
      var u := Combined(high, v);
      var m := if IsHighSurrogate(u) then Machine(ps[1..], u) else Written(u) + Machine(ps[1..], 0);
      assert Machine(ps, high) == "" + m == m;
      if IsHighSurrogate(u) {
        w := KeptOutput(ps[1..], u);
      } else if !IsLowSurrogate(u) {
        w := u;
      }
    } else {
      LoseHigh(ps, high);
    }
  }

  lemma SamePrefix(p: string, a: string, b: string)
    ensures p + a == p + b <==> a == b
  {
    assert (p + a)[|p|..] == a && (p + b)[|p|..] == b;
  }

  /** Texts that start with different characters differ. */
  lemma OtherCharacter(u: nat, w: nat, a: string, b: string)
    requires Scalar(u) && Scalar(w) && u != w && Utf8(w) <= b
    ensures Utf8(u) + a != b
  {
    Utf8Decodes(u, a);
    Utf8Decodes(w, b[|Utf8(w)|..]);
    assert b == Utf8(w) + b[|Utf8(w)|..];
  }

  /** A clashing pair is never read as what it means. */
  lemma ClashDiffers(ps: seq<Piece>)
    requires Valid(ps) && StartsWithPair(ps) && Clash(CodeValue(ps[0]))
    ensures Machine(ps, 0) != Meaning(ps)
  {
    var hi, lo := CodeValue(ps[0]), CodeValue(ps[1]);
    var u := PairValue(hi, lo);
    ClashIff(hi, lo);
    MachinePair(ps);
    ReplacementWellFormed();
    var w := 0;
    if IsHighSurrogate(u) {
      w := KeptOutput(ps[2..], u);
    }
    Low16Mod(w);
    OtherCharacter(u, if w == 0 then 0xFFFD else w, Meaning(ps[2..]), Machine(ps, 0));
  }

  /** A literal is read as section 7 of RFC 8259 says exactly when none of its pairs stands for
      a character U+nD800 to U+nDFFF. */
  lemma {:induction false} MeaningIff(ps: seq<Piece>)
    requires Valid(ps)
    ensures Machine(ps, 0) == Meaning(ps) <==> !Clashes(ps)
    decreases |ps|
  {
    if ps == [] {
    } else if StartsWithPair(ps) {
      var hi, lo := CodeValue(ps[0]), CodeValue(ps[1]);
      if Clash(hi) {
        ClashDiffers(ps);
      } else {
        ClashIff(hi, lo);
        MachinePair(ps);
        MeaningIff(ps[2..]);
        SamePrefix(Utf8(PairValue(hi, lo)), Machine(ps[2..], 0), Meaning(ps[2..]));
      }
    } else {
      MachineSingle(ps);
      MeaningIff(ps[1..]);
      SamePrefix(Single(ps[0]), Machine(ps[1..], 0), Meaning(ps[1..]));
    }
  }

  /** The escaped form of U+1D800, a SignWriting character, is read as U+FFFD. */
  lemma ClashExample()
    ensures var ps := [Code("D836"), Code("DC00")];
      Valid(ps) && Clashes(ps) && Meaning(ps) == Utf8(0x1D800) && Machine(ps, 0) == REPLACEMENT
  {
    var ps := [Code("D836"), Code("DC00")];
    assert CodeValue(ps[0]) == 0xD836 && CodeValue(ps[1]) == 0xDC00;
    assert PairValue(0xD836, 0xDC00) == 0x1D800;
    ClashIff(0xD836, 0xDC00);
    MachinePair(ps);
    PairLow16(0xD836, 0xDC00);
    assert ps[2..] == [];
    assert Utf8(0x1D800) + "" == Utf8(0x1D800);
  }
}
