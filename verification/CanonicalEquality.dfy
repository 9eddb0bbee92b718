/** When canonicalJson prints two values alike: exactly when they are equal up to the order of
    object members, as long as no object has two different keys that the comparison ties. */
module CanonicalEquality {
  import opened JsText
  import opened Options
  import opened Sequences
  import opened CanonicalJson

  /** Equal up to the order of object members, at every depth. */
  ghost predicate Same(v: Json, w: Json)
    decreases v
  {
    match v
    case Arr(items) =>
      w.Arr? && |items| == |w.items| && forall i :: 0 <= i < |items| ==> Same(items[i], w.items[i])
    case Obj(members) =>
      w.Obj? && |members| == |w.members| && forall m :: m in members ==> SameAt(m, w.members)
    case _ => v == w
  }

  ghost predicate SameAt(m: Member, ns: seq<Member>)
    decreases m
  {
    var x := Lookup(ns, m.key);
    x.Some? && Same(m.value, x.value)
  }

  /** No object, at any depth, has two different keys that compare equal. */
  ghost predicate NoTies(v: Json, le: KeyOrder)
    decreases v
  {
    match v
    case Arr(items) => forall x :: x in items ==> NoTies(x, le)
    case Obj(members) =>
      && (forall m, n :: m in members && n in members && Tied(m.key, n.key, le) ==> m.key == n.key)
      && (forall m :: m in members ==> NoTies(m.value, le))
    case _ => true
  }

  lemma NormalizedKeysDiffer(ms: seq<Member>, le: KeyOrder)
    requires DistinctKeys(ms)
    ensures DistinctKeys(Normalize(Obj(ms), le).members)
  {
    var sorted, normal := SortMembers(ms, le), Normalize(Obj(ms), le).members;
    SortMembersDistinct(ms, le);
    DistinctKeysDiffer(sorted);
    forall i, j | 0 <= i < j < |normal| ensures normal[i].key != normal[j].key {
      assert normal[i].key == sorted[i].key && normal[j].key == sorted[j].key;
    }
    DistinctKeysDiffer(normal);
  }

  lemma {:induction false} NormalizeWellFormed(v: Json, le: KeyOrder)
    requires WellFormed(v)
    ensures WellFormed(Normalize(v, le))
    decreases v
  {
    match v
    case Arr(items) =>
      forall x | x in Normalize(v, le).items ensures WellFormed(x) {
        var i :| 0 <= i < |items| && x == Normalize(items[i], le);
        NormalizeWellFormed(items[i], le);
      }
    case Obj(members) =>
      SortMembersDistinct(members, le);
      var sorted := SortMembers(members, le);
      NormalizedKeysDiffer(members, le);
      forall n | n in Normalize(v, le).members ensures WellFormed(n.value) {
        var i :| 0 <= i < |sorted| && n == Member(sorted[i].key, Normalize(sorted[i].value, le));
        assert sorted[i] in members;
        NormalizeWellFormed(sorted[i].value, le);
      }
    case _ =>
  }

  /** canonicalJson is injective on normal forms: the printed text loses nothing else. */
  lemma CanonicalEqualIffNormalFormEqual(v: Json, w: Json, le: KeyOrder)
    requires WellFormed(v) && WellFormed(w)
    ensures Canonical(v, le) == Canonical(w, le) <==> Normalize(v, le) == Normalize(w, le)
  {
    CanonicalPrintsNormalForm(v, le);
    CanonicalPrintsNormalForm(w, le);
    if Canonical(v, le) == Canonical(w, le) {
      NormalizeWellFormed(v, le);
      NormalizeWellFormed(w, le);
      assert Print(Normalize(v, le)) + [] == Print(Normalize(w, le)) + [];
      UniquelyDecodable(Normalize(v, le), Normalize(w, le), [], []);
    }
  }

  /** Objects with equal normal forms have, for each member of one, a member of the other with
      the same key and an equal normal form. */
  lemma NormalFormMember(ms: seq<Member>, ns: seq<Member>, m: Member, le: KeyOrder) returns (n: Member)
    requires Normalize(Obj(ms), le) == Normalize(Obj(ns), le) && m in ms
    ensures n in ns && n.key == m.key && Normalize(n.value, le) == Normalize(m.value, le)
  {
    var s, t := SortMembers(ms, le), SortMembers(ns, le);
    assert m in s;
    var i :| 0 <= i < |s| && s[i] == m;
    n := t[i];
    assert n in t;
    assert Normalize(Obj(ms), le).members[i] == Normalize(Obj(ns), le).members[i];
  }

  lemma {:induction false} NormalFormEqualImpliesSame(v: Json, w: Json, le: KeyOrder)
    requires WellFormed(w) && Normalize(v, le) == Normalize(w, le)
    ensures Same(v, w)
    decreases v
  {
    match v
    case Arr(items) =>
      forall i | 0 <= i < |items| ensures Same(items[i], w.items[i]) {
        assert Normalize(v, le).items[i] == Normalize(w, le).items[i];
        NormalFormEqualImpliesSame(items[i], w.items[i], le);
      }
    case Obj(members) =>
      assert |Normalize(v, le).members| == |Normalize(w, le).members|;
      forall m | m in members ensures SameAt(m, w.members) {
        var n := NormalFormMember(members, w.members, m, le);
        LookupMember(w.members, n);
        NormalFormEqualImpliesSame(m.value, n.value, le);
      }
    case _ =>
  }

  function KeyList(ms: seq<Member>): seq<Text> {
    seq(|ms|, i requires 0 <= i < |ms| => ms[i].key)
  }

  ghost predicate SortedTexts(a: seq<Text>, le: KeyOrder) {
    forall i, j :: 0 <= i < j < |a| ==> le(a[i], a[j])
  }

  ghost predicate TieFree(a: seq<Text>, le: KeyOrder) {
    forall i, j :: 0 <= i < j < |a| ==> !Tied(a[i], a[j], le)
  }

  /** Two sorted lists of the same untied keys are the same list. */
  lemma {:induction false} SortedListsAgree(a: seq<Text>, b: seq<Text>, le: KeyOrder)
    requires TotalPreorder(le) && SortedTexts(a, le) && SortedTexts(b, le)
    requires Distinct(a) && Distinct(b) && TieFree(a, le)
    requires forall k :: k in a <==> k in b
    ensures a == b
  {
    assert b == [] || b[0] in b;
    if a != [] {
      assert a[0] in b;
      var j :| 0 <= j < |b| && b[j] == a[0];
      assert b[0] in a;
      var i :| 0 <= i < |a| && a[i] == b[0];
      assert i == 0;
      forall k ensures k in a[1..] <==> k in b[1..] {
        assert k in a[1..] <==> k in a && k != a[0];
        assert k in b[1..] <==> k in b && k != b[0];
      }
      SortedListsAgree(a[1..], b[1..], le);
      assert a == [a[0]] + a[1..] && b == [b[0]] + b[1..];
    }
  }

  /** A duplicate-free list inside another of the same length fills it. */
  lemma {:induction false} InclusionFills(a: seq<Text>, b: seq<Text>)
    requires Distinct(a) && |a| == |b| && forall k :: k in a ==> k in b
    requires Distinct(b)
    ensures forall k :: k in b ==> k in a
  {
    if a != [] {
      assert a[0] in b;
      var j :| 0 <= j < |b| && b[j] == a[0];
      var c := b[..j] + b[j + 1..];
      forall k | k in a[1..] ensures k in c {
        assert k in a && k in b;
        var i :| 0 <= i < |b| && b[i] == k;
        assert i != j;
        if i < j { assert c[i] == k; } else { assert c[i - 1] == k; }
      }
      InclusionFills(a[1..], c);
      forall k | k in b ensures k in a {
        var i :| 0 <= i < |b| && b[i] == k;
        if i != j { assert k in c by { if i < j { assert c[i] == k; } else { assert c[i - 1] == k; } } }
      }
    }
  }

  lemma SameMembersSameKeyList(ms: seq<Member>, ns: seq<Member>, k: Text)
    requires (forall m :: m in ms ==> m in ns) && k in KeyList(ms)
    ensures k in KeyList(ns)
  {
    var i :| 0 <= i < |ms| && ms[i].key == k;
    assert ms[i] in ns;
    var j :| 0 <= j < |ns| && ns[j] == ms[i];
    assert KeyList(ns)[j] == k;
  }

  lemma KeyListDistinct(ms: seq<Member>)
    requires DistinctKeys(ms)
    ensures Distinct(KeyList(ms))
  {
    DistinctKeysDiffer(ms);
  }

  lemma KeyListOfSorted(ms: seq<Member>, le: KeyOrder)
    requires TotalPreorder(le) && DistinctKeys(ms)
    ensures var a := KeyList(SortMembers(ms, le));
            Distinct(a) && SortedTexts(a, le) && (forall k :: k in a <==> k in KeyList(ms))
  {
    var s := SortMembers(ms, le);
    SortMembersSorted(ms, le);
    SortMembersDistinct(ms, le);
    KeyListDistinct(s);
    forall k ensures k in KeyList(s) <==> k in KeyList(ms) {
      if k in KeyList(s) { SameMembersSameKeyList(s, ms, k); }
      if k in KeyList(ms) { SameMembersSameKeyList(ms, s, k); }
    }
  }

  lemma SameObjectsHaveSameKeys(ms: seq<Member>, ns: seq<Member>)
    requires DistinctKeys(ms) && DistinctKeys(ns) && Same(Obj(ms), Obj(ns))
    ensures forall k :: k in KeyList(ms) <==> k in KeyList(ns)
  {
    forall k | k in KeyList(ms) ensures k in KeyList(ns) {
      var i :| 0 <= i < |ms| && ms[i].key == k;
      assert SameAt(ms[i], ns);
      var j :| 0 <= j < |ns| && ns[j] == Member(k, Lookup(ns, k).value);
      assert KeyList(ns)[j] == k;
    }
    KeyListDistinct(ms);
    KeyListDistinct(ns);
    InclusionFills(KeyList(ms), KeyList(ns));
  }

  /** No two members of the object compare equal by key. */
  ghost predicate MembersUntied(ms: seq<Member>, le: KeyOrder) {
    forall m, n :: m in ms && n in ms && Tied(m.key, n.key, le) ==> m.key == n.key
  }

  lemma SortedSameObjectsAgree(ms: seq<Member>, ns: seq<Member>, le: KeyOrder)
    requires TotalPreorder(le) && DistinctKeys(ms) && DistinctKeys(ns) && MembersUntied(ms, le)
    requires Same(Obj(ms), Obj(ns))
    ensures KeyList(SortMembers(ms, le)) == KeyList(SortMembers(ns, le))
  {
    var s, t := SortMembers(ms, le), SortMembers(ns, le);
    KeyListOfSorted(ms, le);
    KeyListOfSorted(ns, le);
    SameObjectsHaveSameKeys(ms, ns);
    assert TieFree(KeyList(s), le) by {
      forall i, j | 0 <= i < j < |s| ensures !Tied(s[i].key, s[j].key, le) {
        assert s[i] in ms && s[j] in ms;
        assert KeyList(s)[i] != KeyList(s)[j];
      }
    }
    SortedListsAgree(KeyList(s), KeyList(t), le);
  }

  lemma NormalFormsAgree(ms: seq<Member>, ns: seq<Member>, le: KeyOrder)
    requires KeyList(SortMembers(ms, le)) == KeyList(SortMembers(ns, le))
    requires forall m, n :: m in ms && n in ns && m.key == n.key ==> Normalize(m.value, le) == Normalize(n.value, le)
    ensures Normalize(Obj(ms), le) == Normalize(Obj(ns), le)
  {
    var s, t := SortMembers(ms, le), SortMembers(ns, le);
    assert |s| == |KeyList(s)| == |KeyList(t)| == |t|;
    forall i | 0 <= i < |s| ensures Normalize(Obj(ms), le).members[i] == Normalize(Obj(ns), le).members[i] {
      assert KeyList(s)[i] == KeyList(t)[i];
      NormalMember(ms, i, le);
      NormalMember(ns, i, le);
    }
    SameMembersSameObject(Normalize(Obj(ms), le), Normalize(Obj(ns), le));
  }

  lemma SameMembersSameObject(v: Json, w: Json)
    requires v.Obj? && w.Obj? && |v.members| == |w.members|
    requires forall i :: 0 <= i < |v.members| ==> v.members[i] == w.members[i]
    ensures v == w
  {
    assert v.members == w.members;
  }

  lemma NormalMember(ms: seq<Member>, i: nat, le: KeyOrder)
    requires i < |SortMembers(ms, le)|
    ensures |Normalize(Obj(ms), le).members| == |SortMembers(ms, le)|
    ensures var m := SortMembers(ms, le)[i];
            m in ms && Normalize(Obj(ms), le).members[i] == Member(m.key, Normalize(m.value, le))
  {
  }

  lemma {:induction false} SameImpliesNormalFormEqual(v: Json, w: Json, le: KeyOrder)
    requires TotalPreorder(le) && WellFormed(v) && WellFormed(w) && NoTies(v, le) && Same(v, w)
    ensures Normalize(v, le) == Normalize(w, le)
    decreases v
  {
    match v
    case Arr(items) =>
      forall i | 0 <= i < |items| ensures Normalize(items[i], le) == Normalize(w.items[i], le) {
        SameImpliesNormalFormEqual(items[i], w.items[i], le);
      }
      assert Normalize(v, le).items == Normalize(w, le).items;
    case Obj(members) =>
      SortedSameObjectsAgree(members, w.members, le);
      forall m, n | m in members && n in w.members && m.key == n.key
        ensures Normalize(m.value, le) == Normalize(n.value, le)
      {
        assert SameAt(m, w.members);
        LookupMember(w.members, n);
        SameImpliesNormalFormEqual(m.value, n.value, le);
      }
      NormalFormsAgree(members, w.members, le);
    case _ =>
  }

  /** The law canonicalJson is for: equal text exactly for values equal up to member order. */
  lemma CanonicalEqualIffSame(v: Json, w: Json, le: KeyOrder)
    requires TotalPreorder(le) && WellFormed(v) && WellFormed(w) && NoTies(v, le)
    ensures Canonical(v, le) == Canonical(w, le) <==> Same(v, w)
  {
    CanonicalEqualIffNormalFormEqual(v, w, le);
    if Canonical(v, le) == Canonical(w, le) {
      NormalFormEqualImpliesSame(v, w, le);
    } else if Same(v, w) {
      SameImpliesNormalFormEqual(v, w, le);
    }
  }

  // ------------------------------------------------ the tie condition is exact

  lemma {:induction false} SameReflexive(v: Json)
    requires WellFormed(v)
    ensures Same(v, v)
    decreases v
  {
    match v
    case Arr(items) => forall i | 0 <= i < |items| ensures Same(items[i], items[i]) { SameReflexive(items[i]); }
    case Obj(members) =>
      forall m | m in members ensures SameAt(m, members) {
        LookupMember(members, m);
        SameReflexive(m.value);
      }
    case _ =>
  }

  ghost predicate Precedes(ms: seq<Member>, a: Text, b: Text) {
    exists i, j :: 0 <= i < j < |ms| && ms[i].key == a && ms[j].key == b
  }

  /** Insertion puts a member before every member its key ties with. */
  lemma {:induction false} InsertGoesFirst(m: Member, sorted: seq<Member>, x: Member, le: KeyOrder)
    requires x in sorted && le(m.key, x.key)
    ensures Precedes(Insert(m, sorted, le), m.key, x.key)
  {
    var r := Insert(m, sorted, le);
    if le(m.key, sorted[0].key) {
      var j :| 0 <= j < |sorted| && sorted[j] == x;
      assert r[0].key == m.key && r[j + 1].key == x.key;
    } else {
      assert x in sorted[1..];
      InsertGoesFirst(m, sorted[1..], x, le);
      var r' := Insert(m, sorted[1..], le);
      var i, j :| 0 <= i < j < |r'| && r'[i].key == m.key && r'[j].key == x.key;
      assert r[i + 1].key == m.key && r[j + 1].key == x.key;
    }
  }

  lemma TiedMembersStayInOrder(a: Member, b: Member, rest: seq<Member>, le: KeyOrder)
    requires le(a.key, b.key)
    ensures Precedes(SortMembers([a, b] + rest, le), a.key, b.key)
  {
    assert ([a, b] + rest)[1..] == [b] + rest;
    assert b in SortMembers([b] + rest, le);
    InsertGoesFirst(a, SortMembers([b] + rest, le), b, le);
  }

  /** With distinct keys, no list has the two keys in both orders. */
  lemma PrecedesOneWay(ms: seq<Member>, a: Text, b: Text)
    requires DistinctKeys(ms) && Precedes(ms, a, b)
    ensures !Precedes(ms, b, a)
  {
    DistinctKeysDiffer(ms);
  }

  lemma NormalFormKeepsOrder(ms: seq<Member>, a: Text, b: Text, le: KeyOrder)
    ensures Precedes(Normalize(Obj(ms), le).members, a, b) <==> Precedes(SortMembers(ms, le), a, b)
  {
    var n, s := Normalize(Obj(ms), le).members, SortMembers(ms, le);
    assert |n| == |s| && forall i :: 0 <= i < |s| ==> n[i].key == s[i].key;
  }

  lemma TiedMembersPrintInBothOrders(a: Member, b: Member, rest: seq<Member>, le: KeyOrder)
    requires TotalPreorder(le) && DistinctKeys([a, b] + rest) && Tied(a.key, b.key, le)
    ensures Normalize(Obj([a, b] + rest), le) != Normalize(Obj([b, a] + rest), le)
  {
    TiedMembersStayInOrder(a, b, rest, le);
    TiedMembersStayInOrder(b, a, rest, le);
    SortMembersDistinct([a, b] + rest, le);
    PrecedesOneWay(SortMembers([a, b] + rest, le), a.key, b.key);
    NormalFormKeepsOrder([a, b] + rest, b.key, a.key, le);
    NormalFormKeepsOrder([b, a] + rest, b.key, a.key, le);
  }

  /** The object without one of its members. */
  lemma {:induction false} RemoveMember(ms: seq<Member>, m: Member) returns (rest: seq<Member>)
    requires DistinctKeys(ms) && m in ms
    ensures DistinctKeys(rest) && |rest| == |ms| - 1
    ensures forall x :: x in rest <==> x in ms && x.key != m.key
  {
    if ms[0] == m {
      rest := ms[1..];
    } else {
      var r := RemoveMember(ms[1..], m);
      assert ms[0].key != m.key;
      rest := [ms[0]] + r;
      assert rest[1..] == r;
      forall x ensures x in rest <==> x in ms && x.key != m.key {
        assert x in rest <==> x == ms[0] || x in r;
        assert x in ms <==> x == ms[0] || x in ms[1..];
      }
    }
  }

  lemma SameMembersSame(ms: seq<Member>, ns: seq<Member>)
    requires DistinctKeys(ms) && DistinctKeys(ns) && |ms| == |ns| && WellFormed(Obj(ms))
    requires forall m :: m in ms ==> m in ns
    ensures Same(Obj(ms), Obj(ns))
  {
    forall m | m in ms ensures SameAt(m, ns) {
      LookupMember(ns, m);
      SameReflexive(m.value);
    }
  }

  /** The object with its member a first and its member b second. */
  lemma BringToFront(ms: seq<Member>, a: Member, b: Member) returns (rest: seq<Member>)
    requires WellFormed(Obj(ms)) && a in ms && b in ms && a.key != b.key
    ensures WellFormed(Obj([a, b] + rest)) && WellFormed(Obj([b, a] + rest))
    ensures Same(Obj(ms), Obj([a, b] + rest)) && Same(Obj(ms), Obj([b, a] + rest))
  {
    var without := RemoveMember(ms, a);
    rest := RemoveMember(without, b);
    FrontWellFormed(ms, a, b, rest);
    FrontWellFormed(ms, b, a, rest);
  }

  lemma FrontWellFormed(ms: seq<Member>, a: Member, b: Member, rest: seq<Member>)
    requires WellFormed(Obj(ms)) && a in ms && b in ms && a.key != b.key
    requires DistinctKeys(rest) && |rest| == |ms| - 2
    requires forall x :: x in rest <==> x in ms && x.key != a.key && x.key != b.key
    ensures WellFormed(Obj([a, b] + rest)) && Same(Obj(ms), Obj([a, b] + rest))
  {
    var ns := [a, b] + rest;
    FrontDistinct(a, b, rest);
    forall m | m in ms ensures m in ns {
      LookupMember(ms, m);
      LookupMember(ms, a);
      LookupMember(ms, b);
      assert m == a || m == b || m in rest;
    }
    forall m | m in ns ensures m in ms {
      assert m == a || m == b || m in rest;
    }
    SameMembersSame(ms, ns);
  }

  lemma FrontDistinct(a: Member, b: Member, rest: seq<Member>)
    requires a.key != b.key && DistinctKeys(rest)
    requires forall x :: x in rest ==> x.key != a.key && x.key != b.key
    ensures DistinctKeys([a, b] + rest)
  {
    assert ([b] + rest)[1..] == rest && ([a, b] + rest)[1..] == [b] + rest;
    assert DistinctKeys([b] + rest);
  }

  /** A value with a tie can be rewritten, members reordered only, so that it prints differently. */
  lemma {:induction false} TieWitness(v: Json, le: KeyOrder) returns (w: Json)
    requires TotalPreorder(le) && WellFormed(v) && !NoTies(v, le)
    ensures WellFormed(w) && Same(v, w) && Normalize(v, le) != Normalize(w, le)
    decreases v
  {
    match v
    case Arr(items) =>
      var x :| x in items && !NoTies(x, le);
      w := ItemTieWitness(items, x, le);
    case Obj(members) =>
      if MembersUntied(members, le) {
        var m :| m in members && !NoTies(m.value, le);
        w := MemberTieWitness(members, m, le);
      } else {
        w := TopTieWitness(members, le);
      }
  }

  lemma TopTieWitness(ms: seq<Member>, le: KeyOrder) returns (w: Json)
    requires TotalPreorder(le) && WellFormed(Obj(ms)) && !MembersUntied(ms, le)
    ensures WellFormed(w) && Same(Obj(ms), w) && Normalize(Obj(ms), le) != Normalize(w, le)
  {
    var a, b :| a in ms && b in ms && Tied(a.key, b.key, le) && a.key != b.key;
    var rest := BringToFront(ms, a, b);
    TiedMembersPrintInBothOrders(a, b, rest, le);
    w := if Normalize(Obj(ms), le) != Normalize(Obj([a, b] + rest), le)
         then Obj([a, b] + rest) else Obj([b, a] + rest);
  }

  lemma {:induction false} ItemTieWitness(items: seq<Json>, x: Json, le: KeyOrder) returns (w: Json)
    requires TotalPreorder(le) && WellFormed(Arr(items)) && x in items && !NoTies(x, le)
    ensures WellFormed(w) && Same(Arr(items), w) && Normalize(Arr(items), le) != Normalize(w, le)
    decreases Arr(items), 0
  {
    var i :| 0 <= i < |items| && items[i] == x;
    var y := TieWitness(x, le);
    w := Arr(items[i := y]);
    forall k | 0 <= k < |items| ensures Same(items[k], w.items[k]) { SameReflexive(items[k]); }
    assert Normalize(Arr(items), le).items[i] != Normalize(w, le).items[i];
  }

  lemma {:induction false} MemberTieWitness(ms: seq<Member>, m: Member, le: KeyOrder) returns (w: Json)
    requires TotalPreorder(le) && WellFormed(Obj(ms)) && m in ms && !NoTies(m.value, le)
    ensures WellFormed(w) && Same(Obj(ms), w) && Normalize(Obj(ms), le) != Normalize(w, le)
    decreases Obj(ms), 0
  {
    var i :| 0 <= i < |ms| && ms[i] == m;
    var y := TieWitness(m.value, le);
    var changed := Member(m.key, y);
    var ns := ms[i := changed];
    w := Obj(ns);
    DistinctKeysDiffer(ms);
    DistinctKeysDiffer(ns);
    forall x | x in ms ensures SameAt(x, ns) {
      var k :| 0 <= k < |ms| && ms[k] == x;
      assert ns[k] in ns;
      LookupMember(ns, ns[k]);
      SameReflexive(x.value);
    }
    forall n | n in ns ensures WellFormed(n.value) { assert n == changed || n in ms; }
    assert ns[i] in ns;
    LookupMember(ns, changed);
    if Normalize(Obj(ms), le) == Normalize(w, le) {
      var n := NormalFormMember(ms, ns, m, le);
      LookupMember(ns, n);
    }
  }

  /** canonicalJson ignores member order on a value exactly when the value has no tied keys. */
  lemma OrderInsensitiveIffNoTies(v: Json, le: KeyOrder)
    requires TotalPreorder(le) && WellFormed(v)
    ensures (forall w :: WellFormed(w) && Same(v, w) ==> Canonical(v, le) == Canonical(w, le)) <==> NoTies(v, le)
  {
    if NoTies(v, le) {
      forall w | WellFormed(w) && Same(v, w) ensures Canonical(v, le) == Canonical(w, le) {
        CanonicalEqualIffSame(v, w, le);
      }
    } else {
      var w := TieWitness(v, le);
      CanonicalEqualIffNormalFormEqual(v, w, le);
    }
  }

  /** With a comparison that never ties different keys, the law holds for all values. */
  lemma {:induction false} TotalOrderHasNoTies(v: Json, le: KeyOrder)
    requires TotalPreorder(le) && forall a, b :: Tied(a, b, le) ==> a == b
    ensures NoTies(v, le)
    decreases v
  {
    match v
    case Arr(items) => forall x | x in items ensures NoTies(x, le) { TotalOrderHasNoTies(x, le); }
    case Obj(members) => forall m | m in members ensures NoTies(m.value, le) { TotalOrderHasNoTies(m.value, le); }
    case _ =>
  }
}
