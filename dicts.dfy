/** Dictionaries filled by assigning `d[k] = v` pair after pair, as the
    loops and comprehensions of the modelled code do. */
module Dicts {

  /** The dictionary left by assigning each pair in order: a later pair
      overrides an earlier one with the same key. */
  function LastWins<K(==), V>(ps: seq<(K, V)>): (m: map<K, V>)
    ensures m.Keys == set i | 0 <= i < |ps| :: ps[i].0
  {
    if ps == [] then map[]
    else
      var m := LastWins(ps[..|ps| - 1]);
      assert forall i :: 0 <= i < |ps| - 1 ==> ps[..|ps| - 1][i] == ps[i];
      m[ps[|ps| - 1].0 := ps[|ps| - 1].1]
  }

  /** Pair `i` is the last one in `ps` with its key. */
  predicate IsLastFor<K(==), V>(ps: seq<(K, V)>, i: int) {
    0 <= i < |ps| && forall j :: i < j < |ps| ==> ps[j].0 != ps[i].0
  }

  /** A key maps to the value of the last pair that assigns it. */
  lemma {:induction false} LastWinsValue<K, V>(ps: seq<(K, V)>, i: int)
    requires IsLastFor(ps, i)
    ensures ps[i].0 in LastWins(ps) && LastWins(ps)[ps[i].0] == ps[i].1
  {
    if i < |ps| - 1 {
      var front := ps[..|ps| - 1];
      assert front[i] == ps[i];
      assert forall j :: i < j < |front| ==> front[j] == ps[j];
      LastWinsValue(front, i);
    }
  }

  /** Every entry of the dictionary was assigned by the last pair with its key. */
  lemma LastWinsFrom<K, V>(ps: seq<(K, V)>, k: K)
    requires k in LastWins(ps)
    ensures exists i :: IsLastFor(ps, i) && ps[i].0 == k && LastWins(ps)[k] == ps[i].1
  {
    var i :| 0 <= i < |ps| && ps[i].0 == k;
    while !IsLastFor(ps, i)
      invariant 0 <= i < |ps| && ps[i].0 == k
      decreases |ps| - i
    {
      var j :| i < j < |ps| && ps[j].0 == ps[i].0;
      i := j;
    }
    LastWinsValue(ps, i);
  }
}
