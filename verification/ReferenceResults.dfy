/** The results of dereferencing documents as they are written: complete unless references form a cycle,
    and independent of member order. */
module ReferenceResults {
  import opened JsText
  import opened Options
  import opened Sequences
  import opened CanonicalJson
  import opened CanonicalEquality
  import opened OpenApiReferences
  import opened ReferenceCycles

  // ------------------------------------------------------------------------- cycles

  /** Wherever an object has a member "$ref", it is not itself an object. */
  predicate Plain(v: Json)
    decreases v
  {
    match v
    case Arr(items) => forall x :: x in items ==> Plain(x)
    case Obj(members) => forall m :: m in members ==> (m.key == REF ==> !m.value.Obj?) && Plain(m.value)
    case _ => true
  }

  lemma {:induction false} PlainIsNotMisled(v: Json, doc: Json, seen: set<Text>, universe: set<Text>)
    requires Plain(v) && LocalRefs(v) + LocalRefs(doc) <= universe
    ensures !Misled(v, doc, seen, universe)
    decreases v
  {
    match v
    case Arr(items) =>
      forall i | 0 <= i < |items| ensures (ItemRefs(v, i); !Misled(items[i], doc, seen, universe)) {
        ItemRefs(v, i);
        PlainIsNotMisled(items[i], doc, seen, universe);
      }
    case Obj(members) =>
      forall i | 0 <= i < |members| ensures (MemberRefs(v, members[i]); !Misled(members[i].value, doc, seen, universe)) {
        MemberRefs(v, members[i]);
        PlainIsNotMisled(members[i].value, doc, seen, universe);
      }
    case _ =>
  }

  lemma {:induction false} NavigatePlain(from: Target, segments: seq<Text>)
    requires from.Found? ==> Plain(from.value)
    ensures Navigate(from, segments).Found? ==> Plain(Navigate(from, segments).value)
    decreases |segments|
  {
    if segments != [] && from.Found? {
      var v := from.value;
      if v.Obj? && Lookup(v.members, segments[0]).Some? {
        assert Member(segments[0], Lookup(v.members, segments[0]).value) in v.members;
      }
      NavigatePlain(Property(v, segments[0]), segments[1..]);
    }
  }

  lemma PointeePlain(doc: Json, ref: Text)
    requires Plain(doc)
    ensures Pointee(doc, ref).Some? ==> Plain(Pointee(doc, ref).value)
  {
    if IsLocal(ref) { NavigatePlain(Found(doc), SplitSlash(ref[2..])); }
  }

  /** A walk in the reference graph: each reference is live in what the one before points to. */
  predicate IsWalk(p: seq<Text>, v: Json, doc: Json) {
    && p != [] && p[0] in LiveRefs(v)
    && forall i :: 0 <= i < |p| - 1 ==> Pointee(doc, p[i]).Some? && p[i + 1] in LiveRefs(Pointee(doc, p[i]).value)
  }

  /** The references met from v lead back to one met before. */
  ghost predicate Cyclic(v: Json, doc: Json) {
    exists p :: IsWalk(p, v, doc) && p[|p| - 1] in p[..|p| - 1]
  }

  lemma {:induction false} BadEndIsCycle(p: seq<Text>, v: Json, doc: Json, seen: set<Text>, universe: set<Text>)
    requires Plain(v) && Plain(doc) && LocalRefs(v) + LocalRefs(doc) <= universe
    requires EndsBadly(p, v, doc, seen, universe)
    ensures IsWalk(p, v, doc) && (p[|p| - 1] in seen || p[|p| - 1] in p[..|p| - 1])
    decreases |p|
  {
    PlainIsNotMisled(v, doc, seen, universe);
    if p[0] !in seen {
      PointeeRefs(doc, p[0]);
      PointeePlain(doc, p[0]);
      var w, q := Pointee(doc, p[0]).value, p[1..];
      BadEndIsCycle(q, w, doc, seen + {p[0]}, universe);
      forall i | 0 <= i < |p| - 1
        ensures Pointee(doc, p[i]).Some? && p[i + 1] in LiveRefs(Pointee(doc, p[i]).value)
      {
        if i > 0 { assert q[i - 1] == p[i] && q[i] == p[i + 1]; }
      }
      var last := p[|p| - 1];
      assert q[|q| - 1] == last;
      if last in q[..|q| - 1] {
        var j :| 0 <= j < |q| - 1 && q[j] == last;
        assert p[..|p| - 1][j + 1] == last;
      } else if last == p[0] {
        assert p[..|p| - 1][0] == last;
      }
    }
  }

  /** The walk without its first step. */
  lemma WalkTail(p: seq<Text>, v: Json, doc: Json, seen: set<Text>)
    requires IsWalk(p, v, doc) && p[0] !in seen && (p[|p| - 1] in seen || p[|p| - 1] in p[..|p| - 1])
    ensures |p| > 1 && Pointee(doc, p[0]).Some? && IsWalk(p[1..], Pointee(doc, p[0]).value, doc)
    ensures p[|p| - 1] in seen + {p[0]} || p[|p| - 1] in p[1..][..|p| - 2]
  {
    var last, rest := p[|p| - 1], p[1..];
    assert |p| > 1 && rest[0] == p[0 + 1];
    forall i | 0 <= i < |rest| - 1
      ensures Pointee(doc, rest[i]).Some? && rest[i + 1] in LiveRefs(Pointee(doc, rest[i]).value)
    {
      assert rest[i] == p[i + 1] && rest[i + 1] == p[i + 1 + 1];
    }
    if last in p[..|p| - 1] {
      var j :| 0 <= j < |p| - 1 && p[j] == last;
      if j > 0 { assert rest[..|p| - 2][j - 1] == last; }
    }
  }

  lemma {:induction false} CycleIsBadEnd(p: seq<Text>, v: Json, doc: Json, seen: set<Text>, universe: set<Text>)
    returns (q: seq<Text>)
    requires LocalRefs(v) + LocalRefs(doc) <= universe && IsWalk(p, v, doc)
    requires p[|p| - 1] in seen || p[|p| - 1] in p[..|p| - 1]
    ensures EndsBadly(q, v, doc, seen, universe)
    decreases |p|
  {
    if p[0] in seen {
      q := [p[0]];
    } else {
      WalkTail(p, v, doc, seen);
      PointeeRefs(doc, p[0]);
      var r := CycleIsBadEnd(p[1..], Pointee(doc, p[0]).value, doc, seen + {p[0]}, universe);
      q := [p[0]] + r;
      assert q[1..] == r;
    }
  }

  /** For documents whose "$ref" members are not objects, dereferencing leaves a local reference exactly
      when the references it follows form a cycle. */
  lemma UnresolvedIffCyclic(v: Json, doc: Json, le: KeyOrder)
    requires WellFormed(v) && WellFormed(doc) && Plain(v) && Plain(doc) && Dereferenced(v, doc, le).Some?
    ensures Unresolved(Dereferenced(v, doc, le).value) <==> Cyclic(v, doc)
  {
    var universe := LocalRefs(v) + LocalRefs(doc);
    UnresolvedIff(v, doc, {}, le, universe);
    if Leaves(v, doc, {}, universe) {
      var p :| EndsBadly(p, v, doc, {}, universe);
      BadEndIsCycle(p, v, doc, {}, universe);
    }
    if Cyclic(v, doc) {
      var p :| IsWalk(p, v, doc) && p[|p| - 1] in p[..|p| - 1];
      var q := CycleIsBadEnd(p, v, doc, {}, universe);
    }
  }

  // A document with one member x that holds the text "#/x", and an object whose "$ref" is a reference to it.

  const X: Text := [120]
  const TO_X: Text := [NUMBER_SIGN, SLASH, 120]
  const X_DOCUMENT := Obj([Member(X, Str(TO_X))])
  const X_REFERENCE := Obj([Member(REF, Str(TO_X))])
  const MISLED := Obj([Member(REF, X_REFERENCE)])

  lemma PointeeOfX()
    ensures Pointee(X_DOCUMENT, TO_X) == Some(Str(TO_X))
  {
    assert X[1..] == [] && SplitSlash([]) == [[]];
    var none: Text := [];
    assert X[..1] + none == X && [none][1..] == [];
    assert SplitSlash(X) == [[X[0]] + none] + [none][1..];
    assert [X[0]] + none == X;
    assert TO_X[2..] == X && Lookup(X_DOCUMENT.members, X) == Some(Str(TO_X));
    assert Navigate(Found(X_DOCUMENT), [X]) == Navigate(Property(X_DOCUMENT, X), [X][1..]);
  }

  lemma MisledRefs()
    ensures LocalRef(X_REFERENCE) == Some(TO_X) && LocalRef(MISLED).None?
    ensures forall r :: r in LiveRefs(MISLED) ==> r == TO_X
    ensures X_REFERENCE.Obj? && MISLED.Obj? && MISLED.members[0] in MISLED.members
  {
    forall r | r in LiveRefs(MISLED) ensures r == TO_X { assert r in LiveRefs(X_REFERENCE); }
  }

  lemma MisledHasNoCycle()
    ensures !Cyclic(MISLED, X_DOCUMENT)
  {
    MisledRefs();
    PointeeOfX();
    forall p | IsWalk(p, MISLED, X_DOCUMENT) ensures p[..|p| - 1] == [] {
      assert p[0] == TO_X;
      if |p| > 1 { assert p[0 + 1] in LiveRefs(Pointee(X_DOCUMENT, p[0]).value); }
    }
  }

  lemma MisledResult(le: KeyOrder)
    ensures Dereferenced(MISLED, X_DOCUMENT, le) == Some(Record([(REF, Leaf(Str(TO_X)))]))
  {
    MisledRefs();
    PointeeOfX();
    var universe := LocalRefs(MISLED) + LocalRefs(X_DOCUMENT);
    MemberRefs(MISLED, MISLED.members[0]);
    assert SortMembers(MISLED.members, le) == [Member(REF, X_REFERENCE)] by {
      assert MISLED.members[1..] == [];
    }
    var sorted, one := SortMembers(MISLED.members, le), Dereference(X_REFERENCE, X_DOCUMENT, {}, le, universe);
    assert Resolve(X_DOCUMENT, TO_X) == Found(Str(TO_X)) && LocalRefs(Str(TO_X)) == {};
    assert Dereference(Str(TO_X), X_DOCUMENT, {} + {TO_X}, le, universe) == Some(Leaf(Str(TO_X)));
    assert one == Some(Leaf(Str(TO_X)));
    var outs := seq(|sorted|, i requires 0 <= i < |sorted| =>
      assert sorted[i] in MISLED.members; Dereference(sorted[i].value, X_DOCUMENT, {}, le, universe));
    assert outs == [one] && KeyList(sorted) == [REF];
    assert RecordOf([REF], [one]).value.fields == [(REF, Leaf(Str(TO_X)))];
  }

  lemma OneMemberWellFormed(key: Text, value: Json)
    requires WellFormed(value)
    ensures WellFormed(Obj([Member(key, value)]))
  {
    assert [Member(key, value)][1..] == [];
  }

  /** Without a cycle, but with an object under "$ref", a local reference can be left all the same. */
  lemma MisledReferenceRemains(le: KeyOrder)
    ensures WellFormed(MISLED) && WellFormed(X_DOCUMENT) && !Plain(MISLED) && !Cyclic(MISLED, X_DOCUMENT)
    ensures Dereferenced(MISLED, X_DOCUMENT, le).Some? && Unresolved(Dereferenced(MISLED, X_DOCUMENT, le).value)
  {
    OneMemberWellFormed(X, Str(TO_X));
    OneMemberWellFormed(REF, Str(TO_X));
    OneMemberWellFormed(REF, X_REFERENCE);
    MisledHasNoCycle();
    MisledResult(le);
    MisledRefs();
    assert IsLocalField(Dereferenced(MISLED, X_DOCUMENT, le).value.fields[0]);
  }

  // -------------------------------------------------------------------- member order

  lemma SameLookup(ms: seq<Member>, ns: seq<Member>, key: Text)
    requires DistinctKeys(ms) && DistinctKeys(ns) && Same(Obj(ms), Obj(ns))
    ensures Lookup(ms, key).Some? <==> Lookup(ns, key).Some?
    ensures Lookup(ms, key).Some? ==> Same(Lookup(ms, key).value, Lookup(ns, key).value)
  {
    SameObjectsHaveSameKeys(ms, ns);
    if Lookup(ms, key).Some? {
      var m := Member(key, Lookup(ms, key).value);
      assert m in ms && SameAt(m, ns);
    }
    if Lookup(ns, key).Some? {
      var n := Member(key, Lookup(ns, key).value);
      assert n in ns;
      var j :| 0 <= j < |ns| && ns[j] == n;
      assert KeyList(ns)[j] == key && key in KeyList(ms);
      var i :| 0 <= i < |ms| && KeyList(ms)[i] == key;
      assert ms[i] in ms && ms[i].key == key;
    }
  }

  lemma SameLocalRef(v: Json, w: Json)
    requires WellFormed(v) && WellFormed(w) && Same(v, w)
    ensures LocalRef(v) == LocalRef(w)
  {
    if v.Obj? { SameLookup(v.members, w.members, REF); }
  }

  /** Every member of one object has a counterpart in the other. */
  lemma SameCounterpart(ms: seq<Member>, ns: seq<Member>, n: Member) returns (m: Member)
    requires DistinctKeys(ms) && DistinctKeys(ns) && Same(Obj(ms), Obj(ns)) && n in ns
    ensures m in ms && m.key == n.key && Same(m.value, n.value)
  {
    SameLookup(ms, ns, n.key);
    LookupMember(ns, n);
    m := Member(n.key, Lookup(ms, n.key).value);
  }

  lemma {:induction false} SameLocalRefs(v: Json, w: Json)
    requires WellFormed(v) && WellFormed(w) && Same(v, w)
    ensures LocalRefs(v) == LocalRefs(w)
    decreases v
  {
    SameLocalRef(v, w);
    match v
    case Arr(items) =>
      forall i | 0 <= i < |items| ensures LocalRefs(items[i]) == LocalRefs(w.items[i]) { SameLocalRefs(items[i], w.items[i]); }
      forall r ensures r in LocalRefs(v) <==> r in LocalRefs(w) {
        if r in LocalRefs(v) {
          var i :| 0 <= i < |items| && r in LocalRefs(items[i]);
          assert w.items[i] in w.items;
        }
        if r in LocalRefs(w) {
          var i :| 0 <= i < |items| && r in LocalRefs(w.items[i]);
          assert items[i] in items;
        }
      }
    case Obj(members) =>
      forall r ensures r in LocalRefs(v) <==> r in LocalRefs(w) {
        if m :| m in members && r in LocalRefs(m.value) {
          assert SameAt(m, w.members);
          var n := Member(m.key, Lookup(w.members, m.key).value);
          SameLocalRefs(m.value, n.value);
          assert n in w.members;
        }
        if n :| n in w.members && r in LocalRefs(n.value) {
          var m := SameCounterpart(members, w.members, n);
          SameLocalRefs(m.value, n.value);
        }
      }
    case _ =>
  }

  predicate SameTarget(s: Target, t: Target) {
    match s
    case Found(v) => t.Found?
    case _ => t == s
  }

  ghost predicate SameFound(s: Target, t: Target) {
    SameTarget(s, t) && (s.Found? ==> Same(s.value, t.value) && WellFormed(s.value) && WellFormed(t.value))
  }

  lemma {:induction false} SameElement<T(!new)>(xs: seq<T>, ys: seq<T>, segment: Text, from: nat) returns (i: nat)
    requires |xs| == |ys| && from <= |xs|
    ensures ElementAt(xs, segment, from).Some? <==> ElementAt(ys, segment, from).Some?
    ensures ElementAt(xs, segment, from).Some? ==>
              i < |xs| && ElementAt(xs, segment, from).value == xs[i] && ElementAt(ys, segment, from).value == ys[i]
    decreases |xs| - from
  {
    i := from;
    if from < |xs| && Decimal(from) != segment { i := SameElement(xs, ys, segment, from + 1); }
  }

  lemma SameProperty(v: Json, w: Json, segment: Text)
    requires WellFormed(v) && WellFormed(w) && Same(v, w)
    ensures SameFound(Property(v, segment), Property(w, segment))
  {
    PropertyWellFormed(v, segment);
    PropertyWellFormed(w, segment);
    match v
    case Obj(members) => SameLookup(members, w.members, segment);
    case Arr(items) => var i := SameElement(items, w.items, segment, 0);
    case _ =>
  }

  lemma {:induction false} SameNavigate(s: Target, t: Target, segments: seq<Text>)
    requires SameFound(s, t)
    ensures SameFound(Navigate(s, segments), Navigate(t, segments))
    decreases |segments|
  {
    if segments != [] && s.Found? {
      SameProperty(s.value, t.value, segments[0]);
      SameNavigate(Property(s.value, segments[0]), Property(t.value, segments[0]), segments[1..]);
    }
  }

  lemma {:induction false} NavigateNoTies(from: Target, segments: seq<Text>, le: KeyOrder)
    requires from.Found? ==> NoTies(from.value, le)
    ensures Navigate(from, segments).Found? ==> NoTies(Navigate(from, segments).value, le)
    decreases |segments|
  {
    if segments != [] && from.Found? {
      var v := from.value;
      if v.Obj? && Lookup(v.members, segments[0]).Some? {
        assert Member(segments[0], Lookup(v.members, segments[0]).value) in v.members;
      }
      NavigateNoTies(Property(v, segments[0]), segments[1..], le);
    }
  }

  /** The members a sorted object is traversed by, pair by pair. */
  lemma SortedPairs(v: Json, w: Json, le: KeyOrder, i: nat)
    requires v.Obj? && w.Obj? && WellFormed(v) && WellFormed(w) && Same(v, w) && NoTies(v, le) && TotalPreorder(le)
    ensures |SortMembers(v.members, le)| == |SortMembers(w.members, le)|
    ensures i < |SortMembers(v.members, le)| ==>
              var m, n := SortMembers(v.members, le)[i], SortMembers(w.members, le)[i];
              m.key == n.key && m in v.members && n in w.members && Same(m.value, n.value)
  {
    var s, t := SortMembers(v.members, le), SortMembers(w.members, le);
    SortedSameObjectsAgree(v.members, w.members, le);
    assert |s| == |KeyList(s)| == |KeyList(t)| == |t|;
    if i < |s| {
      assert KeyList(s)[i] == KeyList(t)[i];
      assert SameAt(s[i], w.members);
      LookupMember(w.members, t[i]);
    }
  }

  ghost predicate Comparable(v: Json, w: Json, le: KeyOrder) {
    WellFormed(v) && WellFormed(w) && Same(v, w) && NoTies(v, le)
  }

  lemma SamePointee(doc: Json, doc': Json, ref: Text, le: KeyOrder)
    requires Comparable(doc, doc', le) && IsLocal(ref)
    ensures SameTarget(Resolve(doc, ref), Resolve(doc', ref))
    ensures Resolve(doc, ref).Found? ==> Comparable(Resolve(doc, ref).value, Resolve(doc', ref).value, le)
  {
    SameNavigate(Found(doc), Found(doc'), SplitSlash(ref[2..]));
    NavigateNoTies(Found(doc), SplitSlash(ref[2..]), le);
  }

  /** Documents that are equal up to member order give the same result. */
  lemma {:induction false} SameResult(
      v: Json, w: Json, doc: Json, doc': Json, seen: set<Text>, le: KeyOrder, universe: set<Text>)
    requires TotalPreorder(le) && Comparable(v, w, le) && Comparable(doc, doc', le)
    requires LocalRefs(v) + LocalRefs(doc) <= universe && LocalRefs(w) + LocalRefs(doc') <= universe
    ensures Dereference(v, doc, seen, le, universe) == Dereference(w, doc', seen, le, universe)
    decreases |universe - seen|, v
  {
    SameLocalRef(v, w);
    if v.Arr? {
      SameItems(v, w, doc, doc', seen, le, universe);
    } else if LocalRef(v).Some? {
      var ref := LocalRef(v).value;
      SamePointee(doc, doc', ref, le);
      if ref !in seen && Resolve(doc, ref).Found? {
        Expanding(universe, seen, ref);
        NavigateRefs(Found(doc), SplitSlash(ref[2..]), doc);
        NavigateRefs(Found(doc'), SplitSlash(ref[2..]), doc');
        SameResult(Resolve(doc, ref).value, Resolve(doc', ref).value, doc, doc', seen + {ref}, le, universe);
      }
    } else if v.Obj? {
      SameFields(v, w, doc, doc', seen, le, universe);
    }
  }

  lemma {:induction false} SameItems(
      v: Json, w: Json, doc: Json, doc': Json, seen: set<Text>, le: KeyOrder, universe: set<Text>)
    requires v.Arr? && TotalPreorder(le) && Comparable(v, w, le) && Comparable(doc, doc', le)
    requires LocalRefs(v) + LocalRefs(doc) <= universe && LocalRefs(w) + LocalRefs(doc') <= universe
    ensures Dereference(v, doc, seen, le, universe) == Dereference(w, doc', seen, le, universe)
    decreases |universe - seen|, v, 0
  {
    forall i | 0 <= i < |v.items|
      ensures (ItemRefs(v, i); ItemRefs(w, i);
               Dereference(v.items[i], doc, seen, le, universe) == Dereference(w.items[i], doc', seen, le, universe))
    {
      ItemRefs(v, i);
      ItemRefs(w, i);
      SameResult(v.items[i], w.items[i], doc, doc', seen, le, universe);
    }
    var outs := seq(|v.items|, i requires 0 <= i < |v.items| =>
      assert v.items[i] in v.items; Dereference(v.items[i], doc, seen, le, universe));
    var outs' := seq(|w.items|, i requires 0 <= i < |w.items| =>
      assert w.items[i] in w.items; Dereference(w.items[i], doc', seen, le, universe));
    assert outs == outs';
  }

  lemma {:induction false} SameFields(
      v: Json, w: Json, doc: Json, doc': Json, seen: set<Text>, le: KeyOrder, universe: set<Text>)
    requires v.Obj? && LocalRef(v).None? && LocalRef(w).None?
    requires TotalPreorder(le) && Comparable(v, w, le) && Comparable(doc, doc', le)
    requires LocalRefs(v) + LocalRefs(doc) <= universe && LocalRefs(w) + LocalRefs(doc') <= universe
    ensures Dereference(v, doc, seen, le, universe) == Dereference(w, doc', seen, le, universe)
    decreases |universe - seen|, v, 0
  {
    var s, t := SortMembers(v.members, le), SortMembers(w.members, le);
    SortedPairs(v, w, le, 0);
    forall i | 0 <= i < |s|
      ensures (MemberRefs(v, s[i]); MemberRefs(w, t[i]);
               Dereference(s[i].value, doc, seen, le, universe) == Dereference(t[i].value, doc', seen, le, universe))
    {
      SortedPairs(v, w, le, i);
      MemberRefs(v, s[i]);
      MemberRefs(w, t[i]);
      SameResult(s[i].value, t[i].value, doc, doc', seen, le, universe);
    }
    SortedSameObjectsAgree(v.members, w.members, le);
    FieldsEqual(v, w, doc, doc', seen, le, universe);
  }

  lemma FieldsEqual(v: Json, w: Json, doc: Json, doc': Json, seen: set<Text>, le: KeyOrder, universe: set<Text>)
    requires v.Obj? && w.Obj? && LocalRef(v).None? && LocalRef(w).None?
    requires LocalRefs(v) + LocalRefs(doc) <= universe && LocalRefs(w) + LocalRefs(doc') <= universe
    requires |SortMembers(v.members, le)| == |SortMembers(w.members, le)|
    requires KeyList(SortMembers(v.members, le)) == KeyList(SortMembers(w.members, le))
    requires var s, t := SortMembers(v.members, le), SortMembers(w.members, le);
             forall i :: 0 <= i < |s| ==>
               (MemberRefs(v, s[i]); MemberRefs(w, t[i]);
                Dereference(s[i].value, doc, seen, le, universe) == Dereference(t[i].value, doc', seen, le, universe))
    ensures Dereference(v, doc, seen, le, universe) == Dereference(w, doc', seen, le, universe)
  {
    var s, t := SortMembers(v.members, le), SortMembers(w.members, le);
    var outs := seq(|s|, i requires 0 <= i < |s| =>
      assert s[i] in v.members; Dereference(s[i].value, doc, seen, le, universe));
    var outs' := seq(|t|, i requires 0 <= i < |t| =>
      assert t[i] in w.members; Dereference(t[i].value, doc', seen, le, universe));
    assert outs == outs';
  }

  /** Two writings of a document that differ only in member order have the same snapshot. */
  lemma MemberOrderIsIrrelevant(v: Json, w: Json, doc: Json, doc': Json, le: KeyOrder)
    requires TotalPreorder(le) && Comparable(v, w, le) && Comparable(doc, doc', le)
    ensures Dereferenced(v, doc, le) == Dereferenced(w, doc', le)
  {
    SameLocalRefs(v, w);
    SameLocalRefs(doc, doc');
    SameResult(v, w, doc, doc', {}, le, LocalRefs(v) + LocalRefs(doc));
  }
}
