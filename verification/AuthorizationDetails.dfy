/** The matchers over authorization details (section 2 of RFC 9396) in
    server/usecases/external-resources.ts. Every decision goes through canonicalJson, so a list
    of details is judged by the list of its canonical texts. */
module AuthorizationDetails {
  import opened JsText
  import opened Options
  import opened Sequences
  import opened CanonicalJson
  import opened CanonicalEquality

  function CanonicalTexts(details: seq<Json>, le: KeyOrder): seq<Text> {
    seq(|details|, i requires 0 <= i < |details| => Canonical(details[i], le))
  }

  function RemoveAt<T>(s: seq<T>, i: nat): seq<T>
    requires i < |s|
  {
    s[..i] + s[i + 1..]
  }

  lemma RemoveAtMultiset<T>(s: seq<T>, i: nat)
    requires i < |s|
    ensures multiset(RemoveAt(s, i)) == multiset(s) - multiset{s[i]}
  {
    assert s == s[..i] + [s[i]] + s[i + 1..];
  }

  method IndexOf(texts: seq<Text>, text: Text) returns (index: int)
    ensures -1 <= index < |texts|
    ensures index == -1 ==> text !in texts
    ensures index >= 0 ==> texts[index] == text && text !in texts[..index]
  {
    index := 0;
    while index < |texts|
      invariant 0 <= index <= |texts| && text !in texts[..index]
    {
      if texts[index] == text { return; }
      index := index + 1;
    }
    index := -1;
  }

  lemma CountPastPrefix<T>(s: seq<T>, k: nat)
    requires k < |s|
    ensures multiset(s)[s[k]] >= multiset(s[..k])[s[k]] + 1
  {
    assert s == s[..k] + [s[k]] + s[k + 1..];
  }

  /** The removal loop decides inclusion of multisets of canonical texts. */
  method IsAuthorizationDetailsSubset(requested: seq<Json>, allowed: seq<Json>, le: KeyOrder) returns (subset: bool)
    ensures subset <==> multiset(CanonicalTexts(requested, le)) <= multiset(CanonicalTexts(allowed, le))
  {
    var remaining := CanonicalTexts(allowed, le);
    ghost var all, wanted := multiset(remaining), CanonicalTexts(requested, le);
    var texts := CanonicalTexts(requested, le);
    for k := 0 to |texts|
      invariant multiset(texts[..k]) + multiset(remaining) == all
    {
      assert texts[..k + 1] == texts[..k] + [texts[k]];
      var index := IndexOf(remaining, texts[k]);
      if index == -1 {
        CountPastPrefix(texts, k);
        return false;
      }
      RemoveAtMultiset(remaining, index);
      remaining := RemoveAt(remaining, index);
    }
    assert texts[..|texts|] == texts;
    return true;
  }

  // -------------------------------------------------------------- the sorted comparison

  /** Array.prototype.sort without a comparator: by code units. */
  predicate LexLe(a: Text, b: Text) {
    a == [] || (b != [] && (a[0] < b[0] || (a[0] == b[0] && LexLe(a[1..], b[1..]))))
  }

  lemma {:induction false} LexTotal(a: Text, b: Text)
    ensures LexLe(a, b) || LexLe(b, a)
  {
    if a != [] && b != [] { LexTotal(a[1..], b[1..]); }
  }

  lemma {:induction false} LexTransitive(a: Text, b: Text, c: Text)
    requires LexLe(a, b) && LexLe(b, c)
    ensures LexLe(a, c)
  {
    if a != [] && a[0] == b[0] == c[0] { LexTransitive(a[1..], b[1..], c[1..]); }
  }

  lemma {:induction false} LexAntisymmetric(a: Text, b: Text)
    requires LexLe(a, b) && LexLe(b, a)
    ensures a == b
  {
    if a != [] && b != [] {
      LexAntisymmetric(a[1..], b[1..]);
      assert a == [a[0]] + a[1..] && b == [b[0]] + b[1..];
    }
  }

  function InsertText(t: Text, sorted: seq<Text>): (r: seq<Text>)
    ensures multiset(r) == multiset(sorted) + multiset{t}
  {
    if sorted == [] then [t]
    else if LexLe(t, sorted[0]) then [t] + sorted
    else
      assert sorted == [sorted[0]] + sorted[1..];
      [sorted[0]] + InsertText(t, sorted[1..])
  }

  function SortTexts(texts: seq<Text>): (r: seq<Text>)
    ensures multiset(r) == multiset(texts)
  {
    if texts == [] then []
    else
      assert texts == [texts[0]] + texts[1..];
      InsertText(texts[0], SortTexts(texts[1..]))
  }

  ghost predicate LexSorted(s: seq<Text>) {
    forall i, j :: 0 <= i < j < |s| ==> LexLe(s[i], s[j])
  }

  lemma {:induction false} InsertTextSorted(t: Text, s: seq<Text>)
    requires LexSorted(s)
    ensures LexSorted(InsertText(t, s))
  {
    if s != [] {
      if LexLe(t, s[0]) {
        forall j | 0 <= j < |s| ensures LexLe(t, s[j]) {
          if j > 0 { LexTransitive(t, s[0], s[j]); }
        }
      } else {
        LexTotal(t, s[0]);
        InsertTextSorted(t, s[1..]);
        var r := InsertText(t, s[1..]);
        forall j | 0 <= j < |r| ensures LexLe(s[0], r[j]) {
          assert r[j] in multiset(r);
          assert r[j] == t || r[j] in s[1..];
        }
      }
    }
  }

  lemma {:induction false} SortTextsSorted(texts: seq<Text>)
    ensures LexSorted(SortTexts(texts))
  {
    if texts != [] {
      SortTextsSorted(texts[1..]);
      InsertTextSorted(texts[0], SortTexts(texts[1..]));
    }
  }

  lemma TailMultiset(s: seq<Text>)
    requires s != []
    ensures multiset(s[1..]) == multiset(s) - multiset{s[0]}
  {
    assert s == [s[0]] + s[1..];
  }

  lemma SortedHeadIsLeast(s: seq<Text>, x: Text)
    requires LexSorted(s) && x in multiset(s)
    ensures LexLe(s[0], x)
  {
    var i :| 0 <= i < |s| && s[i] == x;
    LexTotal(x, x);
  }

  /** A sorted list is determined by its multiset. */
  lemma {:induction false} SortedListUnique(s: seq<Text>, t: seq<Text>)
    requires LexSorted(s) && LexSorted(t) && multiset(s) == multiset(t)
    ensures s == t
  {
    assert |multiset(s)| == |s| && |multiset(t)| == |t|;
    if s != [] {
      assert s[0] in multiset(s) && t[0] in multiset(t);
      SortedHeadIsLeast(s, t[0]);
      SortedHeadIsLeast(t, s[0]);
      LexAntisymmetric(s[0], t[0]);
      TailMultiset(s);
      TailMultiset(t);
      SortedListUnique(s[1..], t[1..]);
      assert s == [s[0]] + s[1..] && t == [t[0]] + t[1..];
    }
  }

  /** exactAuthorizationDetails. */
  predicate ExactAuthorizationDetails(left: seq<Json>, right: seq<Json>, le: KeyOrder) {
    |left| == |right| && SortTexts(CanonicalTexts(left, le)) == SortTexts(CanonicalTexts(right, le))
  }

  lemma ExactIffSameMultiset(left: seq<Json>, right: seq<Json>, le: KeyOrder)
    ensures ExactAuthorizationDetails(left, right, le)
       <==> multiset(CanonicalTexts(left, le)) == multiset(CanonicalTexts(right, le))
  {
    var s, t := CanonicalTexts(left, le), CanonicalTexts(right, le);
    if multiset(s) == multiset(t) {
      assert |multiset(s)| == |left| && |multiset(t)| == |right|;
      SortTextsSorted(s);
      SortTextsSorted(t);
      SortedListUnique(SortTexts(s), SortTexts(t));
    }
    assert multiset(SortTexts(s)) == multiset(s) && multiset(SortTexts(t)) == multiset(t);
  }

  ghost predicate SubsetOf(requested: seq<Json>, allowed: seq<Json>, le: KeyOrder) {
    multiset(CanonicalTexts(requested, le)) <= multiset(CanonicalTexts(allowed, le))
  }

  /** Inclusion both ways is exactly what the sorted comparison accepts. */
  lemma MutualInclusionIffExact(left: seq<Json>, right: seq<Json>, le: KeyOrder)
    ensures SubsetOf(left, right, le) && SubsetOf(right, left, le) <==> ExactAuthorizationDetails(left, right, le)
  {
    ExactIffSameMultiset(left, right, le);
  }

  /** In terms of the values themselves: the lists are exact when one is a rearrangement of the
      other up to the order of object members. */
  ghost predicate Rearranges(p: seq<nat>, left: seq<Json>, right: seq<Json>) {
    && |p| == |left| == |right|
    && (forall i :: 0 <= i < |p| ==> p[i] < |right|)
    && (forall i, j :: 0 <= i < j < |p| ==> p[i] != p[j])
    && (forall i :: 0 <= i < |p| ==> Same(left[i], right[p[i]]))
  }

  /** p lists, for each text of s, the place in t of its own copy. */
  ghost predicate Places(p: seq<nat>, s: seq<Text>, t: seq<Text>) {
    && |p| == |s| == |t|
    && (forall i :: 0 <= i < |p| ==> p[i] < |t| && s[i] == t[p[i]])
    && (forall i, j :: 0 <= i < j < |p| ==> p[i] != p[j])
  }

  lemma PlacesCons(q: seq<nat>, s: seq<Text>, t: seq<Text>, k: nat) returns (p: seq<nat>)
    requires s != [] && k < |t| && s[0] == t[k] && Places(q, s[1..], RemoveAt(t, k))
    ensures Places(p, s, t)
  {
    p := [k] + seq(|q|, i requires 0 <= i < |q| => if q[i] < k then q[i] else q[i] + 1);
    forall i | 0 <= i < |p| ensures p[i] < |t| && s[i] == t[p[i]] {
      if i > 0 { assert s[1..][i - 1] == RemoveAt(t, k)[q[i - 1]]; }
    }
  }

  lemma PlacesTail(p: seq<nat>, s: seq<Text>, t: seq<Text>) returns (q: seq<nat>)
    requires s != [] && Places(p, s, t)
    ensures Places(q, s[1..], RemoveAt(t, p[0]))
  {
    var k := p[0];
    q := seq(|p| - 1, i requires 0 <= i < |p| - 1 => if p[i + 1] < k then p[i + 1] else p[i + 1] - 1);
    forall i | 0 <= i < |q| ensures q[i] < |t| - 1 && s[1..][i] == RemoveAt(t, k)[q[i]] {
      assert p[i + 1] != k;
    }
    forall i, j | 0 <= i < j < |q| ensures q[i] != q[j] {
      assert p[i + 1] != p[j + 1] && p[i + 1] != k && p[j + 1] != k;
    }
  }

  lemma {:induction false} MultisetEqualHasPlaces(s: seq<Text>, t: seq<Text>) returns (p: seq<nat>)
    requires multiset(s) == multiset(t)
    ensures Places(p, s, t)
  {
    assert |multiset(s)| == |s| && |multiset(t)| == |t|;
    if s == [] {
      p := [];
    } else {
      assert s[0] in multiset(s);
      var k :| 0 <= k < |t| && t[k] == s[0];
      RemoveAtMultiset(t, k);
      TailMultiset(s);
      var q := MultisetEqualHasPlaces(s[1..], RemoveAt(t, k));
      p := PlacesCons(q, s, t, k);
    }
  }

  lemma {:induction false} PlacesMultisetEqual(p: seq<nat>, s: seq<Text>, t: seq<Text>)
    requires Places(p, s, t)
    ensures multiset(s) == multiset(t)
    decreases |s|
  {
    if s == [] {
      assert t == [];
    } else {
      var q := PlacesTail(p, s, t);
      PlacesMultisetEqual(q, s[1..], RemoveAt(t, p[0]));
      RemoveAtMultiset(t, p[0]);
      assert s == [s[0]] + s[1..];
    }
  }

  /** exactAuthorizationDetails accepts two lists exactly when one rearranges the other. */
  lemma ExactIffRearranges(left: seq<Json>, right: seq<Json>, le: KeyOrder)
    requires TotalPreorder(le) && (forall v :: v in left ==> WellFormed(v) && NoTies(v, le))
    requires forall w :: w in right ==> WellFormed(w)
    ensures ExactAuthorizationDetails(left, right, le) <==> exists p :: Rearranges(p, left, right)
  {
    var s, t := CanonicalTexts(left, le), CanonicalTexts(right, le);
    ExactIffSameMultiset(left, right, le);
    forall i, j | 0 <= i < |left| && 0 <= j < |right| ensures s[i] == t[j] <==> Same(left[i], right[j]) {
      CanonicalEqualIffSame(left[i], right[j], le);
    }
    if multiset(s) == multiset(t) {
      var p := MultisetEqualHasPlaces(s, t);
      assert Rearranges(p, left, right);
    }
    if p :| Rearranges(p, left, right) {
      PlacesMultisetEqual(p, s, t);
    }
  }
}
