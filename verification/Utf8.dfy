/** UTF-8 as sections 3 and 4 of RFC 3629 define it, and what the tokener writes for a code
    value. */
module Utf8Text {
  import opened JsonTokener

  /** A Unicode scalar value: not a surrogate. */
  predicate Scalar(u: nat) {
    u < 0xD800 || 0xE000 <= u < 0x110000
  }

  predicate Within(c: char, lo: int, hi: int) {
    lo <= c as int <= hi
  }

  predicate Tail(c: char) { Within(c, 0x80, 0xBF) }

  /** The octets of the first character by the grammar of section 4, 0 if there is none. */
  function CharLength(b: string): (n: nat)
    ensures n <= |b|
  {
    if b == [] then 0
    else if Within(b[0], 0x00, 0x7F) then 1
    else if |b| < 2 then 0
    else if Within(b[0], 0xC2, 0xDF) && Tail(b[1]) then 2
    else if |b| < 3 || !Tail(b[2]) then 0
    else if Within(b[0], 0xE0, 0xE0) && Within(b[1], 0xA0, 0xBF) then 3
    else if (Within(b[0], 0xE1, 0xEC) || Within(b[0], 0xEE, 0xEF)) && Tail(b[1]) then 3
    else if Within(b[0], 0xED, 0xED) && Within(b[1], 0x80, 0x9F) then 3
    else if |b| < 4 || !Tail(b[3]) then 0
    else if Within(b[0], 0xF0, 0xF0) && Within(b[1], 0x90, 0xBF) then 4
    else if Within(b[0], 0xF1, 0xF3) && Tail(b[1]) then 4
    else if Within(b[0], 0xF4, 0xF4) && Within(b[1], 0x80, 0x8F) then 4
    else 0
  }

  predicate WellFormed(b: string) {
    b == [] || (CharLength(b) > 0 && WellFormed(b[CharLength(b)..]))
  }

  /** The bits that the first character carries, by the table of section 3. */
  function CodePoint(b: string): int {
    var n := CharLength(b);
    if n == 1 then b[0] as int
    else if n == 2 then (b[0] as int - 0xC0) * 0x40 + (b[1] as int - 0x80)
    else if n == 3 then
      (b[0] as int - 0xE0) * 0x1000 + (b[1] as int - 0x80) * 0x40 + (b[2] as int - 0x80)
    else if n == 4 then
      (b[0] as int - 0xF0) * 0x40000 + (b[1] as int - 0x80) * 0x1000 + (b[2] as int - 0x80) * 0x40 +
      (b[3] as int - 0x80)
    else -1
  }

  lemma Digits64(u: nat)
    ensures u == u / 0x40 * 0x40 + u % 0x40
    ensures u / 0x40 == u / 0x1000 * 0x40 + u / 0x40 % 0x40
    ensures u / 0x1000 == u / 0x40000 * 0x40 + u / 0x1000 % 0x40
  {
  }

  /** The tokener writes exactly the character that stands for u. */
  lemma Utf8Decodes(u: nat, rest: string)
    requires Scalar(u)
    ensures CharLength(Utf8(u) + rest) == |Utf8(u)| && CodePoint(Utf8(u) + rest) == u
  {
    Digits64(u);
    var b := Utf8(u) + rest;
    assert forall i :: 0 <= i < |Utf8(u)| ==> b[i] == Utf8(u)[i];
  }

  lemma CharLengthAppend(a: string, b: string)
    requires CharLength(a) > 0
    ensures CharLength(a + b) == CharLength(a)
  {
    assert forall i :: 0 <= i < |a| ==> (a + b)[i] == a[i];
  }

  lemma {:induction false} WellFormedAppend(a: string, b: string)
    requires WellFormed(a) && WellFormed(b)
    ensures WellFormed(a + b)
    decreases |a|
  {
    if a == [] {
      assert a + b == b;
    } else {
      var n := CharLength(a);
      CharLengthAppend(a, b);
      assert (a + b)[n..] == a[n..] + b;
      WellFormedAppend(a[n..], b);
    }
  }

  lemma Utf8WellFormed(u: nat)
    requires Scalar(u)
    ensures WellFormed(Utf8(u))
  {
    Utf8Decodes(u, "");
    assert Utf8(u) + "" == Utf8(u);
    assert Utf8(u)[|Utf8(u)|..] == "";
  }

  lemma ReplacementWellFormed()
    ensures WellFormed(REPLACEMENT) && REPLACEMENT == Utf8(0xFFFD)
  {
    assert 0xFFFD / 0x1000 == 15 && 0xFFFD / 0x40 % 0x40 == 63 && 0xFFFD % 0x40 == 61;
    assert CharLength(REPLACEMENT) == 3;
    assert REPLACEMENT[3..] == "";
  }
}
