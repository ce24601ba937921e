// Small vocabulary shared by the models.
module Basics {
  datatype Option<+T> = None | Some(value: T)

  function Min(a: nat, b: nat): (r: nat)
    ensures r <= a && r <= b && (r == a || r == b)
  {
    if a < b then a else b
  }

  // The position i places after position p, in a ring of the given size.
  function Slot(p: nat, i: nat, size: nat): nat {
    if p + i < size then p + i else p + i - size
  }

  function Sum(p: seq<nat>): nat {
    if p == [] then 0 else p[0] + Sum(p[1..])
  }

  lemma {:induction false} SumUpdate(p: seq<nat>, i: nat, v: nat)
    requires i < |p|
    ensures Sum(p[i := v]) == Sum(p) - p[i] + v
  {
    if i > 0 {
      SumUpdate(p[1..], i - 1, v);
      assert p[i := v][1..] == p[1..][i - 1 := v];
    } else {
      assert p[i := v][1..] == p[1..];
    }
  }
}
