/** JSON values as json-c holds them, and the text the printers make of them. Text is a
    string of byte-sized characters. */
module JsonValues {
  import opened LinkHash

  /** `Int` is a signed and `UInt` an unsigned 64-bit integer; a `Double` is known by its
      text only. */
  datatype Json =
    | Null
    | Bool(b: bool)
    | Int(i: int)
    | UInt(u: nat)
    | Double(text: string)
    | Str(s: string)
    | Arr(items: seq<Json>)
    | Obj(fields: seq<Field>)

  datatype Field = Field(name: string, value: Json)

  const INT64_MIN: int := -0x8000_0000_0000_0000
  const INT64_MAX: int := 0x7fff_ffff_ffff_ffff
  const UINT64_MAX: int := 0xffff_ffff_ffff_ffff
  const NUL: char := '\0'

  // ---------------------------------------------------------------- printing

  datatype Flags = Flags(spaced: bool, pretty: bool, prettyTab: bool, noSlashEscape: bool)

  function Repeat(c: char, n: nat): (r: string)
    ensures |r| == n
    ensures forall i :: 0 <= i < n ==> r[i] == c
  {
    seq(n, _ => c)
  }

  function Indent(level: nat, f: Flags): string {
    if !f.pretty then "" else if f.prettyTab then Repeat('\t', level) else Repeat(' ', level * 2)
  }

  /** White space before an element. */
  function Gap(level: nat, f: Flags): string {
    (if f.pretty then "\n" else if f.spaced then " " else "") + Indent(level + 1, f)
  }

  /** White space before a closing bracket. */
  function CloseGap(level: nat, f: Flags, empty: bool): string {
    (if f.pretty && !empty then "\n" + Indent(level, f) else "") +
    (if f.spaced && !f.pretty then " " else "")
  }

  const HEX := "0123456789abcdef"

  /** What one character of a string is printed as. */
  function EscapeChar(c: char, f: Flags): string {
    if c == '\U{8}' then "\\b"
    else if c == '\n' then "\\n"
    else if c == '\r' then "\\r"
    else if c == '\t' then "\\t"
    else if c == '\U{c}' then "\\f"
    else if c == '"' then "\\\""
    else if c == '\\' then "\\\\"
    else if c == '/' && !f.noSlashEscape then "\\/"
    else if c < ' ' then "\\u00" + [HEX[c as int / 16], HEX[c as int % 16]]
    else [c]
  }

  function Escape(s: string, f: Flags): string {
    if s == [] then [] else EscapeChar(s[0], f) + Escape(s[1..], f)
  }

  function Digit(d: nat): char
    requires d < 10
  {
    '0' + d as char
  }

  function Decimal(n: nat): (r: string)
    ensures |r| > 0
    ensures forall i :: 0 <= i < |r| ==> '0' <= r[i] <= '9'
  {
    if n < 10 then [Digit(n)] else Decimal(n / 10) + [Digit(n % 10)]
  }

  function Print(v: Json, level: nat, f: Flags): string
    decreases v, 1
  {
    match v
    case Null => "null"
    case Bool(b) => if b then "true" else "false"
    case Int(i) => if i < 0 then "-" + Decimal(-i) else Decimal(i)
    case UInt(u) => Decimal(u)
    case Double(text) => text
    case Str(s) => "\"" + Escape(s, f) + "\""
    case Arr(items) => "[" + PrintItems(items, true, level, f)
    case Obj(fields) => "{" + PrintFields(fields, true, level, f)
  }

  /** The elements that are left and the closing bracket. */
  function PrintItems(items: seq<Json>, first: bool, level: nat, f: Flags): string
    decreases items, 0
  {
    if items == [] then CloseGap(level, f, first) + "]"
    else (if first then "" else ",") + Gap(level, f) + Print(items[0], level + 1, f) +
         PrintItems(items[1..], false, level, f)
  }

  /** A field up to its value. */
  function PrintName(name: string, level: nat, f: Flags): string {
    Gap(level, f) + "\"" + Escape(name, f) + "\":" + (if f.spaced then " " else "")
  }

  function PrintFields(fields: seq<Field>, first: bool, level: nat, f: Flags): string
    decreases fields, 0
  {
    if fields == [] then CloseGap(level, f, first) + "}"
    else (if first then "" else ",") + PrintName(fields[0].name, level, f) +
         Print(fields[0].value, level + 1, f) + PrintFields(fields[1..], false, level, f)
  }

  // ---------------------------------------------------------------- objects

  /** json_object_object_add: an existing field keeps its place and gets the new value. */
  function SetField(fields: seq<Field>, name: string, v: Json): seq<Field> {
    if fields == [] then [Field(name, v)]
    else if fields[0].name == name then [Field(name, v)] + fields[1..]
    else [fields[0]] + SetField(fields[1..], name, v)
  }

  function Pairs(fields: seq<Field>): (r: seq<(string, Json)>)
    ensures |r| == |fields|
    ensures forall i :: 0 <= i < |fields| ==> r[i] == (fields[i].name, fields[i].value)
  {
    seq(|fields|, i requires 0 <= i < |fields| => (fields[i].name, fields[i].value))
  }

  predicate DistinctNames(fields: seq<Field>) {
    forall i, j :: 0 <= i < j < |fields| ==> fields[i].name != fields[j].name
  }

  /** Setting a field is what the linked hash table under an object does. */
  lemma {:induction false} SetFieldRefines(fields: seq<Field>, name: string, v: Json)
    requires DistinctNames(fields)
    ensures Pairs(SetField(fields, name, v)) == Updated(Pairs(fields), name, v)
    decreases |fields|
  {
    if i :| 0 <= i < |fields| && fields[i].name == name {
      FindUnique(Pairs(fields), name, i);
      SetFieldAt(fields, name, v, i);
    } else {
      SetFieldAppends(fields, name, v);
    }
  }

  lemma {:induction false} SetFieldAt(fields: seq<Field>, name: string, v: Json, i: nat)
    requires DistinctNames(fields) && i < |fields| && fields[i].name == name
    ensures SetField(fields, name, v) == fields[i := Field(name, v)]
    decreases |fields|
  {
    if i > 0 {
      SetFieldAt(fields[1..], name, v, i - 1);
    }
  }

  lemma {:induction false} SetFieldAppends(fields: seq<Field>, name: string, v: Json)
    requires forall i :: 0 <= i < |fields| ==> fields[i].name != name
    ensures SetField(fields, name, v) == fields + [Field(name, v)]
    decreases |fields|
  {
    if fields != [] {
      SetFieldAppends(fields[1..], name, v);
    }
  }

  // ---------------------------------------------------------------- equality

  /** json_object_equal: integers by value, objects by fields in any order. */
  predicate Equal(a: Json, b: Json)
    decreases a, 1
  {
    match (a, b)
    case (Null, Null) => true
    case (Bool(x), Bool(y)) => x == y
    case (Int(x), Int(y)) => x == y
    case (Int(x), UInt(y)) => x >= 0 && x == y
    case (UInt(x), UInt(y)) => x == y
    case (UInt(x), Int(y)) => y >= 0 && x == y
    case (Double(x), Double(y)) => x == y
    case (Str(x), Str(y)) => x == y
    case (Arr(x), Arr(y)) => |x| == |y| && EqualItems(x, y)
    case (Obj(x), Obj(y)) =>
      EqualFields(x, y) && forall j :: 0 <= j < |y| ==> FindName(x, y[j].name) >= 0
    case _ => false
  }

  predicate EqualItems(x: seq<Json>, y: seq<Json>)
    requires |x| == |y|
    decreases x, 0
  {
    x == [] || (Equal(x[0], y[0]) && EqualItems(x[1..], y[1..]))
  }

  /** Every field of x is in y with an equal value. */
  predicate EqualFields(x: seq<Field>, y: seq<Field>)
    decreases x, 0
  {
    x == [] ||
    (FindName(y, x[0].name) >= 0 && Equal(x[0].value, y[FindName(y, x[0].name)].value) &&
     EqualFields(x[1..], y))
  }

  function FindName(fields: seq<Field>, name: string): (r: int)
    ensures -1 <= r < |fields|
    ensures r >= 0 ==> fields[r].name == name
    ensures r == -1 ==> forall i :: 0 <= i < |fields| ==> fields[i].name != name
  {
    if fields == [] then -1
    else if fields[0].name == name then 0
    else
      var r := FindName(fields[1..], name);
      if r == -1 then -1 else r + 1
  }
}
