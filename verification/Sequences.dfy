/** Facts about sequences and sets that several modules use. */
module Sequences {
  /** No element occurs twice. */
  predicate Distinct<T(==)>(xs: seq<T>) {
    forall i, j :: 0 <= i < j < |xs| ==> xs[i] != xs[j]
  }

  lemma Regroup<T>(a: seq<T>, b: seq<T>, c: seq<T>)
    ensures a + b + c == a + (b + c)
  {
  }

  lemma HeadAndTail<T>(xs: seq<T>, ys: seq<T>)
    requires xs != [] && ys != [] && |xs| == |ys|
    requires xs[0] == ys[0] && (|xs| > 1 ==> xs[1..] == ys[1..])
    ensures xs == ys
  {
    if |xs| > 1 { assert xs == [xs[0]] + xs[1..] && ys == [ys[0]] + ys[1..]; }
  }

  /** A number that is not in the set. */
  lemma {:induction false} FreshNat(used: set<nat>) returns (n: nat)
    ensures forall u :: u in used ==> u < n
    decreases used
  {
    if used == {} {
      n := 0;
    } else {
      var u :| u in used;
      n := FreshNat(used - {u});
      assert forall w :: w in used ==> w == u || w in used - {u};
      if n <= u { n := u + 1; }
    }
  }
}
