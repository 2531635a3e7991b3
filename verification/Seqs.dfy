/** Sequences: regrouping of concatenations, removal. */
module Seqs {
  lemma Assoc<T>(a: seq<T>, b: seq<T>, c: seq<T>)
    ensures a + b + c == a + (b + c)
  {
  }

  /** If p + q regroups t + x, it does so behind any prefix. */
  lemma Regroup<T>(d: seq<T>, p: seq<T>, q: seq<T>, t: seq<T>, x: seq<T>)
    requires p + q == t + x
    ensures d + p + q == d + t + x
  {
    Assoc(d, p, q);
    Assoc(d, t, x);
  }

  /** All of the pieces one after another. */
  function Flatten<T>(chunks: seq<seq<T>>): seq<T> {
    if chunks == [] then [] else chunks[0] + Flatten(chunks[1..])
  }

  /** The sequence without its i-th element. */
  function Without<T>(s: seq<T>, i: nat): seq<T>
    requires i < |s|
  {
    s[..i] + s[i + 1..]
  }

  lemma WithoutIn<T>(s: seq<T>, i: nat)
    requires i < |s| && forall a, b :: 0 <= a < b < |s| ==> s[a] != s[b]
    ensures forall x :: x in Without(s, i) <==> x in s && x != s[i]
  {
    var s' := Without(s, i);
    forall x ensures x in s' <==> x in s && x != s[i] {
      if x in s && x != s[i] {
        var p :| 0 <= p < |s| && s[p] == x;
        assert s'[if p < i then p else p - 1] == x;
      }
      if x in s' {
        var p :| 0 <= p < |s'| && s'[p] == x;
        assert s[if p < i then p else p + 1] == x;
      }
    }
  }
}
