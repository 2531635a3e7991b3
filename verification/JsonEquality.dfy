/** What json_object_equal decides: whether two values are the same mathematical value. */
module JsonEquality {
  import opened JsonValues
  import opened JsonTheorems

  /** Integers are numbers, whatever their type, and an object is a map. */
  datatype Value =
    | Nothing
    | Truth(b: bool)
    | Number(i: int)
    | Real(text: string)
    | Chars(s: string)
    | List(items: seq<Value>)
    | Record(fields: map<string, Value>)

  function Abs(v: Json): Value {
    match v
    case Null => Nothing
    case Bool(b) => Truth(b)
    case Int(i) => Number(i)
    case UInt(u) => Number(u)
    case Double(text) => Real(text)
    case Str(s) => Chars(s)
    case Arr(items) => List(AbsItems(items))
    case Obj(fields) => Record(AbsFields(fields))
  }

  function AbsItems(items: seq<Json>): (r: seq<Value>)
    ensures |r| == |items|
  {
    if items == [] then [] else [Abs(items[0])] + AbsItems(items[1..])
  }

  function AbsFields(fields: seq<Field>): map<string, Value> {
    if fields == [] then map[] else AbsFields(fields[1..])[fields[0].name := Abs(fields[0].value)]
  }

  /** The names of every object in a value are distinct, as the table keeps them. */
  predicate Proper(v: Json) {
    match v
    case Arr(items) => ProperItems(items)
    case Obj(fields) => DistinctNames(fields) && ProperFields(fields)
    case _ => true
  }

  predicate ProperItems(items: seq<Json>) {
    items != [] ==> Proper(items[0]) && ProperItems(items[1..])
  }

  predicate ProperFields(fields: seq<Field>) {
    fields != [] ==> Proper(fields[0].value) && ProperFields(fields[1..])
  }

  lemma {:induction false} ProperAt(fields: seq<Field>, i: nat)
    requires ProperFields(fields) && i < |fields|
    ensures Proper(fields[i].value)
    decreases |fields|
  {
    if i > 0 {
      ProperAt(fields[1..], i - 1);
    }
  }

  /** The map of an object is what lookup finds. */
  lemma {:induction false} AbsFind(fields: seq<Field>, name: string)
    ensures name in AbsFields(fields) <==> FindName(fields, name) >= 0
    ensures FindName(fields, name) >= 0 ==>
      AbsFields(fields)[name] == Abs(fields[FindName(fields, name)].value)
    decreases |fields|
  {
    if fields != [] {
      AbsFind(fields[1..], name);
    }
  }

  /** The i-th field of an object is in its map. */
  lemma AbsAt(fields: seq<Field>, i: nat)
    requires DistinctNames(fields) && i < |fields|
    ensures fields[i].name in AbsFields(fields) && AbsFields(fields)[fields[i].name] == Abs(fields[i].value)
  {
    FindDistinct(fields, i);
    AbsFind(fields, fields[i].name);
  }

  /** Two values are equal exactly if they stand for the same. */
  lemma {:induction false} EqualIff(a: Json, b: Json)
    requires Proper(a) && Proper(b)
    ensures Equal(a, b) <==> Abs(a) == Abs(b)
    decreases a, 1
  {
    match (a, b)
    case (Arr(x), Arr(y)) =>
      if |x| == |y| { ItemsIff(x, y); }
    case (Obj(x), Obj(y)) =>
      FieldsIff(x, y);
      RecordsIff(x, y);
    case _ =>
  }

  lemma {:induction false} ItemsIff(x: seq<Json>, y: seq<Json>)
    requires |x| == |y| && ProperItems(x) && ProperItems(y)
    ensures EqualItems(x, y) <==> AbsItems(x) == AbsItems(y)
    decreases x, 0
  {
    if x != [] {
      EqualIff(x[0], y[0]);
      ItemsIff(x[1..], y[1..]);
      var p, q := AbsItems(x), AbsItems(y);
      assert p[0] == Abs(x[0]) && p[1..] == AbsItems(x[1..]) && q[0] == Abs(y[0]) && q[1..] == AbsItems(y[1..]);
    }
  }

  /** A field is in a record. */
  predicate In(f: Field, m: map<string, Value>) {
    f.name in m && m[f.name] == Abs(f.value)
  }

  lemma {:induction false} FieldsIff(x: seq<Field>, y: seq<Field>)
    requires ProperFields(x) && ProperFields(y)
    ensures EqualFields(x, y) <==> forall i :: 0 <= i < |x| ==> In(x[i], AbsFields(y))
    decreases x, 0
  {
    if x != [] {
      var j := FindName(y, x[0].name);
      AbsFind(y, x[0].name);
      if j >= 0 {
        ProperAt(y, j);
        EqualIff(x[0].value, y[j].value);
      }
      FieldsIff(x[1..], y);
      assert forall i :: 1 <= i < |x| ==> x[i] == x[1..][i - 1];
      assert (forall i :: 0 <= i < |x| ==> In(x[i], AbsFields(y))) <==>
        In(x[0], AbsFields(y)) && forall i :: 0 <= i < |x[1..]| ==> In(x[1..][i], AbsFields(y));
    }
  }

  /** Two records are the same if every field of one is in the other and no name is missing. */
  lemma RecordsIff(x: seq<Field>, y: seq<Field>)
    requires DistinctNames(x) && DistinctNames(y)
    ensures AbsFields(x) == AbsFields(y) <==>
      (forall i :: 0 <= i < |x| ==> In(x[i], AbsFields(y))) &&
      (forall j :: 0 <= j < |y| ==> FindName(x, y[j].name) >= 0)
  {
    var m, n := AbsFields(x), AbsFields(y);
    forall i | 0 <= i < |x| ensures In(x[i], m) {
      AbsAt(x, i);
    }
    forall j | 0 <= j < |y| ensures In(y[j], n) && (FindName(x, y[j].name) >= 0 <==> y[j].name in m) {
      AbsAt(y, j);
      AbsFind(x, y[j].name);
    }
    if (forall i :: 0 <= i < |x| ==> In(x[i], n)) && (forall j :: 0 <= j < |y| ==> FindName(x, y[j].name) >= 0) {
      forall k ensures (k in m <==> k in n) && (k in m ==> m[k] == n[k]) {
        SameAt(x, y, k);
      }
    }
  }

  lemma SameAt(x: seq<Field>, y: seq<Field>, k: string)
    requires forall i :: 0 <= i < |x| ==> In(x[i], AbsFields(y))
    requires forall j :: 0 <= j < |y| ==> FindName(x, y[j].name) >= 0
    ensures k in AbsFields(x) <==> k in AbsFields(y)
    ensures k in AbsFields(x) ==> AbsFields(x)[k] == AbsFields(y)[k]
  {
    AbsFind(x, k);
    AbsFind(y, k);
    var i, j := FindName(x, k), FindName(y, k);
    if i >= 0 {
      assert In(x[i], AbsFields(y));
    }
    if j >= 0 {
      assert FindName(x, y[j].name) >= 0;
    }
  }
}
