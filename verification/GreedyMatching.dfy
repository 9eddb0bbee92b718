/** Greedy one-to-one assignment: requirements are served in order, each by the first remaining
    candidate that satisfies it. */
module GreedyMatching {
  import opened AuthorizationDetails

  /** `remaining.findIndex(...)`, with the length standing for "not found". */
  function FirstMatch<A, R>(remaining: seq<A>, r: R, sat: (A, R) -> bool): (i: nat)
    ensures i <= |remaining|
    ensures i < |remaining| ==> sat(remaining[i], r)
    ensures forall k :: 0 <= k < i ==> !sat(remaining[k], r)
  {
    if remaining == [] || sat(remaining[0], r) then 0
    else 1 + FirstMatch(remaining[1..], r, sat)
  }

  lemma {:induction false} FirstMatchUnique<A, R>(remaining: seq<A>, r: R, sat: (A, R) -> bool, index: nat)
    requires index <= |remaining| && (index < |remaining| ==> sat(remaining[index], r))
    requires forall k :: 0 <= k < index ==> !sat(remaining[k], r)
    ensures FirstMatch(remaining, r, sat) == index
  {
    if index > 0 { FirstMatchUnique(remaining[1..], r, sat, index - 1); }
  }

  method FindIndex<A, R>(remaining: seq<A>, r: R, sat: (A, R) -> bool) returns (index: int)
    ensures index == -1 ==> FirstMatch(remaining, r, sat) == |remaining|
    ensures index != -1 ==> 0 <= index < |remaining| && index == FirstMatch(remaining, r, sat)
  {
    index := 0;
    while index < |remaining|
      invariant 0 <= index <= |remaining|
      invariant forall k :: 0 <= k < index ==> !sat(remaining[k], r)
    {
      if sat(remaining[index], r) {
        FirstMatchUnique(remaining, r, sat, index);
        return;
      }
      index := index + 1;
    }
    FirstMatchUnique(remaining, r, sat, index);
    index := -1;
  }

  predicate Greedy<A, R>(candidates: seq<A>, requirements: seq<R>, sat: (A, R) -> bool)
    decreases |requirements|
  {
    requirements == [] ||
    var i := FirstMatch(candidates, requirements[0], sat);
    i < |candidates| && Greedy(RemoveAt(candidates, i), requirements[1..], sat)
  }

  /** p gives every requirement its own candidate, one that satisfies it. */
  ghost predicate Pairs<A, R>(p: seq<nat>, candidates: seq<A>, requirements: seq<R>, sat: (A, R) -> bool) {
    && |p| == |requirements|
    && (forall k :: 0 <= k < |p| ==> p[k] < |candidates| && sat(candidates[p[k]], requirements[k]))
    && (forall k, l :: 0 <= k < l < |p| ==> p[k] != p[l])
  }

  function Skip(i: nat, k: nat): nat {
    if k < i then k else k + 1
  }

  function Unskip(i: nat, k: nat): nat
    requires k != i
  {
    if k < i then k else k - 1
  }

  lemma PairsCons<A, R>(q: seq<nat>, i: nat, candidates: seq<A>, requirements: seq<R>, sat: (A, R) -> bool)
    returns (p: seq<nat>)
    requires requirements != [] && i < |candidates| && sat(candidates[i], requirements[0])
    requires Pairs(q, RemoveAt(candidates, i), requirements[1..], sat)
    ensures Pairs(p, candidates, requirements, sat)
  {
    p := [i] + seq(|q|, k requires 0 <= k < |q| => Skip(i, q[k]));
    forall k | 0 <= k < |p| ensures p[k] < |candidates| && sat(candidates[p[k]], requirements[k]) {
      if k > 0 {
        assert q[k - 1] < |candidates| - 1 && requirements[1..][k - 1] == requirements[k];
        assert RemoveAt(candidates, i)[q[k - 1]] == candidates[p[k]];
      }
    }
  }

  lemma PairsTail<A, R>(p: seq<nat>, candidates: seq<A>, requirements: seq<R>, sat: (A, R) -> bool)
    returns (q: seq<nat>)
    requires requirements != [] && Pairs(p, candidates, requirements, sat)
    ensures Pairs(q, RemoveAt(candidates, p[0]), requirements[1..], sat)
  {
    var i := p[0];
    assert forall k :: 0 < k < |p| ==> p[k] != i;
    q := seq(|p| - 1, k requires 0 <= k < |p| - 1 => Unskip(i, p[k + 1]));
    forall k | 0 <= k < |q|
      ensures q[k] < |candidates| - 1 && sat(RemoveAt(candidates, i)[q[k]], requirements[1..][k])
    {
      assert sat(candidates[p[k + 1]], requirements[k + 1]);
      assert RemoveAt(candidates, i)[q[k]] == candidates[p[k + 1]];
    }
    forall k, l | 0 <= k < l < |q| ensures q[k] != q[l] {
      assert p[k + 1] != p[l + 1];
    }
  }

  /** A greedy success is a one-to-one pairing. */
  lemma {:induction false} GreedyIsSound<A, R>(candidates: seq<A>, requirements: seq<R>, sat: (A, R) -> bool)
    returns (p: seq<nat>)
    requires Greedy(candidates, requirements, sat)
    ensures Pairs(p, candidates, requirements, sat)
    decreases |requirements|
  {
    if requirements == [] {
      p := [];
    } else {
      var i := FirstMatch(candidates, requirements[0], sat);
      var q := GreedyIsSound(RemoveAt(candidates, i), requirements[1..], sat);
      p := PairsCons(q, i, candidates, requirements, sat);
    }
  }

  /** Candidates that serve an earlier requirement are interchangeable for every later requirement
      that any of them serves. */
  ghost predicate Exchangeable<A, R>(candidates: seq<A>, requirements: seq<R>, sat: (A, R) -> bool) {
    forall i, j, a, b ::
      0 <= i < j < |requirements| && 0 <= a < |candidates| && 0 <= b < |candidates|
      && sat(candidates[a], requirements[i]) && sat(candidates[a], requirements[j])
      && sat(candidates[b], requirements[i]) ==>
        sat(candidates[b], requirements[j])
  }

  lemma ExchangeableTail<A, R>(candidates: seq<A>, x: nat, requirements: seq<R>, sat: (A, R) -> bool)
    requires requirements != [] && x < |candidates| && Exchangeable(candidates, requirements, sat)
    ensures Exchangeable(RemoveAt(candidates, x), requirements[1..], sat)
  {
    var c, r := RemoveAt(candidates, x), requirements[1..];
    forall i, j, a, b |
      0 <= i < j < |r| && 0 <= a < |c| && 0 <= b < |c| && sat(c[a], r[i]) && sat(c[a], r[j]) && sat(c[b], r[i])
      ensures sat(c[b], r[j])
    {
      assert c[a] == candidates[Skip(x, a)] && c[b] == candidates[Skip(x, b)];
      assert r[i] == requirements[i + 1] && r[j] == requirements[j + 1];
    }
  }

  /** Rearrange a pairing so that the first requirement gets the first candidate that satisfies it. */
  lemma TakeFirstMatch<A, R>(p: seq<nat>, candidates: seq<A>, requirements: seq<R>, sat: (A, R) -> bool)
    returns (q: seq<nat>)
    requires requirements != [] && Pairs(p, candidates, requirements, sat)
    requires Exchangeable(candidates, requirements, sat)
    ensures Pairs(q, candidates, requirements, sat)
    ensures q[0] == FirstMatch(candidates, requirements[0], sat)
  {
    var i := FirstMatch(candidates, requirements[0], sat);
    if k :| 0 < k < |p| && p[k] == i {
      q := p[0 := i][k := p[0]];
      assert sat(candidates[i], requirements[0]) && sat(candidates[i], requirements[k]);
      assert sat(candidates[p[0]], requirements[0]);
      SwapPairs(p, candidates, requirements, sat, k);
    } else {
      q := p[0 := i];
    }
  }

  lemma SwapPairs<A, R>(p: seq<nat>, candidates: seq<A>, requirements: seq<R>, sat: (A, R) -> bool, k: nat)
    requires Pairs(p, candidates, requirements, sat) && 0 < k < |p|
    requires sat(candidates[p[k]], requirements[0]) && sat(candidates[p[0]], requirements[k])
    ensures Pairs(p[0 := p[k]][k := p[0]], candidates, requirements, sat)
  {
  }

  lemma {:induction false} GreedyIsComplete<A, R>(
      p: seq<nat>, candidates: seq<A>, requirements: seq<R>, sat: (A, R) -> bool)
    requires Pairs(p, candidates, requirements, sat) && Exchangeable(candidates, requirements, sat)
    ensures Greedy(candidates, requirements, sat)
    decreases |requirements|
  {
    if requirements != [] {
      var q := TakeFirstMatch(p, candidates, requirements, sat);
      var r := PairsTail(q, candidates, requirements, sat);
      ExchangeableTail(candidates, q[0], requirements, sat);
      GreedyIsComplete(r, RemoveAt(candidates, q[0]), requirements[1..], sat);
    }
  }

  /** Candidates listed in the order of the first requirements are handed out in that order. */
  lemma {:induction false} GreedyFollowsPrefix<A, R>(
      own: seq<A>, rest: seq<A>, requirements: seq<R>, sat: (A, R) -> bool)
    requires |own| <= |requirements|
    requires forall k :: 0 <= k < |own| ==> sat(own[k], requirements[k])
    ensures Greedy(own + rest, requirements, sat) == Greedy(rest, requirements[|own|..], sat)
    decreases |own|
  {
    if own == [] {
      assert own + rest == rest;
    } else {
      assert (own + rest)[0] == own[0];
      assert RemoveAt(own + rest, 0) == own[1..] + rest;
      GreedyFollowsPrefix(own[1..], rest, requirements[1..], sat);
      assert requirements[1..][|own| - 1..] == requirements[|own|..];
    }
  }

  lemma {:induction false} InjectionBoundsSize(s: set<nat>, t: set<nat>, f: map<nat, nat>)
    requires s <= f.Keys
    requires forall k {:trigger f[k]} :: k in s ==> f[k] in t
    requires forall k, l {:trigger f[k], f[l]} :: k in s && l in s && k != l ==> f[k] != f[l]
    ensures |s| <= |t|
  {
    if s != {} {
      var k :| k in s;
      InjectionBoundsSize(s - {k}, t - {f[k]}, f);
    }
  }

  // --------------------------------------------------- a pairing that greedy misses

  /** Every requirement's own candidate in order, x put in front of i's, and j's left out. */
  function Displaced<A>(owns: seq<A>, x: A, i: nat, j: nat): seq<A>
    requires i < j < |owns|
  {
    owns[..i] + ([x] + RemoveAt(owns[i..], j - i))
  }

  /** Whose own candidate stands at place m of Displaced; |owns| stands for x. */
  function Owner(n: nat, i: nat, j: nat, m: nat): nat
    requires i < j < n && m < n
  {
    if m < i then m else if m == i then n else Skip(j, m - 1)
  }

  lemma DisplacedAt<A>(owns: seq<A>, x: A, i: nat, j: nat, m: nat)
    requires i < j < |owns| && m < |owns|
    ensures |Displaced(owns, x, i, j)| == |owns|
    ensures Displaced(owns, x, i, j)[m] == (owns + [x])[Owner(|owns|, i, j, m)]
  {
    var rest := RemoveAt(owns[i..], j - i);
    if m > i {
      assert Displaced(owns, x, i, j)[m] == rest[m - i - 1] == owns[Skip(j, m - 1)];
    }
  }

  /** The situation: i and j share the candidate x, and nothing that j's candidate must carry is
      carried by i's own. */
  ghost predicate Contended<A(!new), R(!new)>(
      owns: seq<A>, x: A, requirements: seq<R>, i: nat, j: nat, sat: (A, R) -> bool)
  {
    && i < j < |owns| == |requirements|
    && (forall k :: 0 <= k < |owns| ==> sat(owns[k], requirements[k]))
    && sat(x, requirements[i]) && sat(x, requirements[j]) && !sat(owns[i], requirements[j])
    && (forall k, l, m ::
          (0 <= k < |owns| && 0 <= l < |owns| && 0 <= m < |owns|
           && sat(owns[k], requirements[l]) && sat(owns[l], requirements[m])) ==>
            sat(owns[k], requirements[m]))
  }

  lemma DisplacedHasPairing<A(!new), R(!new)>(
      owns: seq<A>, x: A, requirements: seq<R>, i: nat, j: nat, sat: (A, R) -> bool) returns (p: seq<nat>)
    requires Contended(owns, x, requirements, i, j, sat)
    ensures Pairs(p, Displaced(owns, x, i, j), requirements, sat)
  {
    var n, a := |owns|, Displaced(owns, x, i, j);
    p := seq(n, k requires 0 <= k < n => if k < i then k else if k == j then i else Unskip(j, k) + 1);
    forall k | 0 <= k < n ensures p[k] < |a| && sat(a[p[k]], requirements[k]) {
      DisplacedAt(owns, x, i, j, p[k]);
    }
  }

  /** The requirement whose own candidate the pairing q gives to requirement k > i. */
  function Server(q: seq<nat>, i: nat, j: nat, k: nat): nat
    requires i < k && k - i - 1 < |q|
  {
    Skip(j, i + q[k - i - 1])
  }

  /** If k's own candidate serves j, then so does the candidate that serves k. */
  lemma ServedByAnother<A(!new), R(!new)>(
      owns: seq<A>, x: A, requirements: seq<R>, i: nat, j: nat, q: seq<nat>, k: nat, sat: (A, R) -> bool)
    requires Contended(owns, x, requirements, i, j, sat) && i < k < |owns|
    requires Pairs(q, RemoveAt(owns[i..], j - i), requirements[i + 1..], sat)
    requires sat(owns[k], requirements[j])
    ensures var s := Server(q, i, j, k); i < s < |owns| && s != j && sat(owns[s], requirements[j])
  {
    var rest, later, s := RemoveAt(owns[i..], j - i), requirements[i + 1..], Server(q, i, j, k);
    var m := q[k - i - 1];
    assert sat(rest[m], later[k - i - 1]);
    assert rest[m] == owns[s] && later[k - i - 1] == requirements[k];
  }

  lemma ServersDiffer(q: seq<nat>, i: nat, j: nat, k: nat, l: nat)
    requires forall a, b :: 0 <= a < b < |q| ==> q[a] != q[b]
    requires i < k < l && l - i - 1 < |q|
    ensures Server(q, i, j, k) != Server(q, i, j, l)
  {
    assert q[k - i - 1] != q[l - i - 1];
  }

  ghost function Rivals<A, R>(owns: seq<A>, requirements: seq<R>, i: nat, j: nat, sat: (A, R) -> bool): set<nat>
    requires j < |requirements|
  {
    set k: nat | k < |owns| && i < k && sat(owns[k], requirements[j])
  }

  lemma Pigeonhole(s: set<nat>, t: set<nat>, f: map<nat, nat>) returns (k: nat)
    requires |t| < |s| && s <= f.Keys
    requires forall k, l {:trigger f[k], f[l]} :: k in s && l in s && k != l ==> f[k] != f[l]
    ensures k in s && f[k] !in t
  {
    if forall k {:trigger f[k]} :: k in s ==> f[k] in t {
      InjectionBoundsSize(s, t, f);
      assert false;
    }
    k :| k in s && f[k] !in t;
  }

  function ServerMap(s: set<nat>, q: seq<nat>, i: nat, j: nat): map<nat, nat>
    requires forall k :: k in s ==> i < k && k - i - 1 < |q|
  {
    map k | k in s :: Server(q, i, j, k)
  }

  /** Servers are distinct and none of them is j, so they cannot all be found in a set holding j. */
  lemma SomeServerIsOutside(s: set<nat>, q: seq<nat>, i: nat, j: nat) returns (k: nat)
    requires j in s
    requires forall n :: n in s ==> i < n && n - i - 1 < |q|
    requires forall a, b :: 0 <= a < b < |q| ==> q[a] != q[b]
    ensures k in s && Server(q, i, j, k) !in s
  {
    var f := ServerMap(s, q, i, j);
    forall m, n {:trigger f[m], f[n]} | m in s && n in s && m != n ensures f[m] != f[n] {
      if m < n { ServersDiffer(q, i, j, m, n); } else { ServersDiffer(q, i, j, n, m); }
    }
    k := Pigeonhole(s, s - {j}, f);
  }

  /** With x gone to i, the candidates that can serve j, or a requirement whose own candidate
      serves j, are one too few. */
  lemma NothingLeft<A(!new), R(!new)>(
      owns: seq<A>, x: A, requirements: seq<R>, i: nat, j: nat, q: seq<nat>, sat: (A, R) -> bool)
    requires Contended(owns, x, requirements, i, j, sat)
    ensures !Pairs(q, RemoveAt(owns[i..], j - i), requirements[i + 1..], sat)
  {
    var s := Rivals(owns, requirements, i, j, sat);
    if Pairs(q, RemoveAt(owns[i..], j - i), requirements[i + 1..], sat) {
      var k := SomeServerIsOutside(s, q, i, j);
      ServedByAnother(owns, x, requirements, i, j, q, k, sat);
      assert false;
    }
  }

  lemma DisplacedDefeatsGreedy<A(!new), R(!new)>(
      owns: seq<A>, x: A, requirements: seq<R>, i: nat, j: nat, sat: (A, R) -> bool)
    requires Contended(owns, x, requirements, i, j, sat)
    ensures !Greedy(Displaced(owns, x, i, j), requirements, sat)
  {
    var rest := RemoveAt(owns[i..], j - i);
    GreedyFollowsPrefix(owns[..i], [x] + rest, requirements, sat);
    var later := requirements[i..];
    assert later[0] == requirements[i] && later[1..] == requirements[i + 1..];
    assert RemoveAt([x] + rest, 0) == rest;
    assert FirstMatch([x] + rest, later[0], sat) == 0;
    if Greedy(rest, later[1..], sat) {
      var q := GreedyIsSound(rest, later[1..], sat);
      NothingLeft(owns, x, requirements, i, j, q, sat);
    }
  }

  /** Contention survives when every requirement d is turned into the candidate priv(d, k), as
      long as that does not change which requirements it satisfies. */
  lemma ContendedByExtension<D(!new)>(
      requested: seq<D>, both: D, owns: seq<D>, i: nat, j: nat,
      p: D -> bool, priv: (D, nat) -> D, covers: (D, D) -> bool, sat: (D, D) -> bool)
    requires |owns| == |requested| && forall k :: 0 <= k < |owns| ==> owns[k] == priv(requested[k], k)
    requires i < j < |requested| && p(both) && forall k :: 0 <= k < |requested| ==> p(requested[k])
    requires forall d, e, k: nat {:trigger sat(priv(d, k), e)} :: p(d) && p(e) ==> (sat(priv(d, k), e) <==> covers(d, e))
    requires forall d {:trigger covers(d, d)} :: p(d) ==> covers(d, d)
    requires forall d, e, f {:trigger covers(d, e), covers(e, f)} :: covers(d, e) && covers(e, f) ==> covers(d, f)
    requires covers(both, requested[i]) && covers(both, requested[j]) && !covers(requested[i], requested[j])
    ensures Contended(owns, priv(both, |requested|), requested, i, j, sat)
  {
  }

  lemma AllExtended<D(!new)>(ds: seq<D>, p: D -> bool, priv: (D, nat) -> D, q: D -> bool)
    requires forall k :: 0 <= k < |ds| ==> p(ds[k])
    requires forall d, k: nat {:trigger priv(d, k)} :: p(d) ==> q(priv(d, k))
    ensures forall x :: x in seq(|ds|, k requires 0 <= k < |ds| => priv(ds[k], k)) ==> q(x)
  {
  }
}
