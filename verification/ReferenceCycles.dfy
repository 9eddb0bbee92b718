/** When dereferencing leaves a local reference behind. */
module ReferenceCycles {
  import opened JsText
  import opened Options
  import opened Sequences
  import opened CanonicalJson
  import opened CanonicalEquality
  import opened OpenApiReferences

  predicate IsLocalText(o: Out) {
    o.Leaf? && o.value.Str? && IsLocal(o.value.text)
  }

  predicate IsLocalField(f: (Text, Out)) {
    f.0 == REF && IsLocalText(f.1)
  }

  /** Somewhere in the result an object still has a local reference under "$ref". */
  predicate Unresolved(o: Out)
    decreases o
  {
    match o
    case List(items) => exists i :: 0 <= i < |items| && Unresolved(items[i])
    case Record(fields) => exists i :: 0 <= i < |fields| && (IsLocalField(fields[i]) || Unresolved(fields[i].1))
    case _ => false
  }

  // --------------------------------------------------------------- the reference graph

  /** The references that are followed in a value: what stands beside a followed "$ref" is dropped. */
  function LiveRefs(v: Json): (r: set<Text>)
    ensures r <= LocalRefs(v)
    decreases v
  {
    match v
    case Arr(items) => set x, r | x in items && r in LiveRefs(x) :: r
    case Obj(members) =>
      if LocalRef(v).Some? then {LocalRef(v).value}
      else set m, r | m in members && r in LiveRefs(m.value) :: r
    case _ => {}
  }

  /** What a reference points to, if it points to anything. */
  function Pointee(doc: Json, ref: Text): Option<Json> {
    if !IsLocal(ref) then None
    else match Resolve(doc, ref) case Found(w) => Some(w) case _ => None
  }

  lemma PointeeRefs(doc: Json, ref: Text)
    ensures Pointee(doc, ref).Some? ==> LocalRefs(Pointee(doc, ref).value) <= LocalRefs(doc)
  {
    if IsLocal(ref) { NavigateRefs(Found(doc), SplitSlash(ref[2..]), doc); }
  }

  /** An object that is replaced, over one or more references, by the text of a local reference. */
  predicate EndsLocal(x: Json, doc: Json, seen: set<Text>, ghost universe: set<Text>)
    requires LocalRefs(x) + LocalRefs(doc) <= universe
    decreases |universe - seen|
  {
    LocalRef(x).Some? &&
    var ref := LocalRef(x).value;
    ref !in seen && Pointee(doc, ref).Some? &&
    var w := Pointee(doc, ref).value;
    PointeeRefs(doc, ref);
    Expanding(universe, seen, ref);
    (w.Str? && IsLocal(w.text)) || EndsLocal(w, doc, seen + {ref}, universe)
  }

  /** A live object whose own "$ref" is such an object. */
  predicate Misled(v: Json, doc: Json, seen: set<Text>, ghost universe: set<Text>)
    requires LocalRefs(v) + LocalRefs(doc) <= universe
    decreases v
  {
    match v
    case Arr(items) =>
      exists i :: 0 <= i < |items| && (assert items[i] in items; Misled(items[i], doc, seen, universe))
    case Obj(members) =>
      LocalRef(v).None? &&
      exists i :: 0 <= i < |members| &&
        (assert members[i] in members;
         (members[i].key == REF && EndsLocal(members[i].value, doc, seen, universe))
         || Misled(members[i].value, doc, seen, universe))
    case _ => false
  }

  /** Following p from v ends at a reference already being expanded, or at a misled object. */
  ghost predicate EndsBadly(p: seq<Text>, v: Json, doc: Json, seen: set<Text>, universe: set<Text>)
    requires LocalRefs(v) + LocalRefs(doc) <= universe
    decreases |p|
  {
    if p == [] then Misled(v, doc, seen, universe)
    else
      p[0] in LiveRefs(v) &&
      if p[0] in seen then |p| == 1
      else
        PointeeRefs(doc, p[0]);
        Pointee(doc, p[0]).Some? && EndsBadly(p[1..], Pointee(doc, p[0]).value, doc, seen + {p[0]}, universe)
  }

  // --------------------------------------------------------------------- both directions

  lemma {:induction false} LocalResultIff(x: Json, doc: Json, seen: set<Text>, le: KeyOrder, universe: set<Text>)
    requires LocalRefs(x) + LocalRefs(doc) <= universe
    requires Dereference(x, doc, seen, le, universe).Some? && !(x.Str? && IsLocal(x.text))
    ensures IsLocalText(Dereference(x, doc, seen, le, universe).value) <==> EndsLocal(x, doc, seen, universe)
    decreases |universe - seen|
  {
    if LocalRef(x).Some? && LocalRef(x).value !in seen {
      var ref := LocalRef(x).value;
      PointeeRefs(doc, ref);
      Expanding(universe, seen, ref);
      if Pointee(doc, ref).Some? {
        var w := Pointee(doc, ref).value;
        if !(w.Str? && IsLocal(w.text)) { LocalResultIff(w, doc, seen + {ref}, le, universe); }
      }
    }
  }

  /** One walk from an item, or from a member's value, is a walk from the whole. */
  lemma WalkFromPart(p: seq<Text>, part: Json, v: Json, doc: Json, seen: set<Text>, universe: set<Text>)
    requires LocalRefs(v) + LocalRefs(doc) <= universe && LocalRefs(part) <= LocalRefs(v)
    requires EndsBadly(p, part, doc, seen, universe)
    requires LiveRefs(part) <= LiveRefs(v) && (Misled(part, doc, seen, universe) ==> Misled(v, doc, seen, universe))
    ensures EndsBadly(p, v, doc, seen, universe)
  {
  }

  lemma WalkToPart(p: seq<Text>, part: Json, v: Json, doc: Json, seen: set<Text>, universe: set<Text>)
    requires LocalRefs(v) + LocalRefs(doc) <= universe && LocalRefs(part) <= LocalRefs(v)
    requires EndsBadly(p, v, doc, seen, universe)
    requires if p == [] then Misled(part, doc, seen, universe) else p[0] in LiveRefs(part)
    ensures EndsBadly(p, part, doc, seen, universe)
  {
  }

  lemma ItemRefs(v: Json, i: nat)
    requires v.Arr? && i < |v.items|
    ensures v.items[i] in v.items && LocalRefs(v.items[i]) <= LocalRefs(v) && LiveRefs(v.items[i]) <= LiveRefs(v)
  {
  }

  lemma MemberRefs(v: Json, m: Member)
    requires v.Obj? && m in v.members
    ensures LocalRefs(m.value) <= LocalRefs(v) && (LocalRef(v).None? ==> LiveRefs(m.value) <= LiveRefs(v))
  {
  }

  /** The result of a part that stands at index i. */
  lemma PartResults(v: Json, doc: Json, seen: set<Text>, le: KeyOrder, universe: set<Text>)
    requires LocalRefs(v) + LocalRefs(doc) <= universe
    requires Dereference(v, doc, seen, le, universe).Some? && (v.Arr? || (v.Obj? && LocalRef(v).None?))
    ensures var o := Dereference(v, doc, seen, le, universe).value;
            && (v.Arr? ==> o.List? && |o.items| == |v.items| && forall i :: 0 <= i < |v.items| ==>
                  (assert v.items[i] in v.items; Dereference(v.items[i], doc, seen, le, universe) == Some(o.items[i])))
            && (v.Obj? ==> var sorted := SortMembers(v.members, le);
                  o.Record? && |o.fields| == |sorted| && forall i :: 0 <= i < |sorted| ==>
                    (assert sorted[i] in v.members;
                     o.fields[i].0 == sorted[i].key
                     && Dereference(sorted[i].value, doc, seen, le, universe) == Some(o.fields[i].1)))
  {
    if v.Arr? {
      var outs := seq(|v.items|, i requires 0 <= i < |v.items| =>
        assert v.items[i] in v.items; Dereference(v.items[i], doc, seen, le, universe));
      assert None !in outs && forall i :: 0 <= i < |outs| ==> outs[i] in outs;
    } else {
      var sorted := SortMembers(v.members, le);
      var outs := seq(|sorted|, i requires 0 <= i < |sorted| =>
        assert sorted[i] in v.members; Dereference(sorted[i].value, doc, seen, le, universe));
      assert None !in outs && forall i :: 0 <= i < |outs| ==> outs[i] in outs;
    }
  }

  ghost predicate Leaves(v: Json, doc: Json, seen: set<Text>, universe: set<Text>)
    requires LocalRefs(v) + LocalRefs(doc) <= universe
  {
    exists p :: EndsBadly(p, v, doc, seen, universe)
  }

  lemma ArrLeavesIff(v: Json, doc: Json, seen: set<Text>, universe: set<Text>)
    requires v.Arr? && LocalRefs(v) + LocalRefs(doc) <= universe
    ensures Leaves(v, doc, seen, universe)
       <==> exists i :: 0 <= i < |v.items| && (ItemRefs(v, i); Leaves(v.items[i], doc, seen, universe))
  {
    if Leaves(v, doc, seen, universe) {
      var p :| EndsBadly(p, v, doc, seen, universe);
      var i :| 0 <= i < |v.items| &&
        (ItemRefs(v, i);
         if p == [] then Misled(v.items[i], doc, seen, universe) else p[0] in LiveRefs(v.items[i]));
      ItemRefs(v, i);
      WalkToPart(p, v.items[i], v, doc, seen, universe);
    }
    forall i | 0 <= i < |v.items| && (ItemRefs(v, i); Leaves(v.items[i], doc, seen, universe))
      ensures Leaves(v, doc, seen, universe)
    {
      ItemRefs(v, i);
      var p :| EndsBadly(p, v.items[i], doc, seen, universe);
      WalkFromPart(p, v.items[i], v, doc, seen, universe);
    }
  }

  /** A member puts a local reference into the result, by itself or inside. */
  ghost predicate MemberLeaves(m: Member, doc: Json, seen: set<Text>, universe: set<Text>)
    requires LocalRefs(m.value) + LocalRefs(doc) <= universe
  {
    (m.key == REF && EndsLocal(m.value, doc, seen, universe)) || Leaves(m.value, doc, seen, universe)
  }

  lemma ObjLeavesIff(v: Json, doc: Json, seen: set<Text>, universe: set<Text>)
    requires v.Obj? && LocalRef(v).None? && LocalRefs(v) + LocalRefs(doc) <= universe
    ensures Leaves(v, doc, seen, universe)
       <==> exists m :: m in v.members && (MemberRefs(v, m); MemberLeaves(m, doc, seen, universe))
  {
    if Leaves(v, doc, seen, universe) {
      var p :| EndsBadly(p, v, doc, seen, universe);
      if p == [] {
        var i :| 0 <= i < |v.members| &&
          (MemberRefs(v, v.members[i]);
           (v.members[i].key == REF && EndsLocal(v.members[i].value, doc, seen, universe))
           || Misled(v.members[i].value, doc, seen, universe));
        MemberRefs(v, v.members[i]);
        if Misled(v.members[i].value, doc, seen, universe) { assert EndsBadly([], v.members[i].value, doc, seen, universe); }
        assert v.members[i] in v.members && MemberLeaves(v.members[i], doc, seen, universe);
      } else {
        var m :| m in v.members && p[0] in LiveRefs(m.value);
        MemberRefs(v, m);
        WalkToPart(p, m.value, v, doc, seen, universe);
        assert MemberLeaves(m, doc, seen, universe);
      }
    }
    forall m | m in v.members && (MemberRefs(v, m); MemberLeaves(m, doc, seen, universe))
      ensures Leaves(v, doc, seen, universe)
    {
      MemberLeavesWhole(m, v, doc, seen, universe);
    }
  }

  lemma MemberLeavesWhole(m: Member, v: Json, doc: Json, seen: set<Text>, universe: set<Text>)
    requires v.Obj? && LocalRef(v).None? && LocalRefs(v) + LocalRefs(doc) <= universe
    requires m in v.members && LocalRefs(m.value) <= LocalRefs(v) && MemberLeaves(m, doc, seen, universe)
    ensures Leaves(v, doc, seen, universe)
  {
    MemberRefs(v, m);
    var i :| 0 <= i < |v.members| && v.members[i] == m;
    if m.key == REF && EndsLocal(m.value, doc, seen, universe) {
      assert EndsBadly([], v, doc, seen, universe);
    } else {
      var p :| EndsBadly(p, m.value, doc, seen, universe);
      WalkFromPart(p, m.value, v, doc, seen, universe);
    }
  }

  ghost predicate LeavesBeyond(ref: Text, doc: Json, seen: set<Text>, universe: set<Text>)
    requires LocalRefs(doc) <= universe
  {
    PointeeRefs(doc, ref);
    Pointee(doc, ref).Some? && Leaves(Pointee(doc, ref).value, doc, seen + {ref}, universe)
  }

  lemma RefLeavesIff(v: Json, doc: Json, seen: set<Text>, universe: set<Text>)
    requires LocalRef(v).Some? && LocalRefs(v) + LocalRefs(doc) <= universe
    ensures Leaves(v, doc, seen, universe)
       <==> LocalRef(v).value in seen || LeavesBeyond(LocalRef(v).value, doc, seen, universe)
  {
    var ref := LocalRef(v).value;
    PointeeRefs(doc, ref);
    if Leaves(v, doc, seen, universe) {
      var p :| EndsBadly(p, v, doc, seen, universe);
      assert p[0] == ref;
      if ref !in seen { assert EndsBadly(p[1..], Pointee(doc, ref).value, doc, seen + {ref}, universe); }
    }
    if ref in seen {
      assert EndsBadly([ref], v, doc, seen, universe);
    } else if Pointee(doc, ref).Some? && Leaves(Pointee(doc, ref).value, doc, seen + {ref}, universe) {
      var p :| EndsBadly(p, Pointee(doc, ref).value, doc, seen + {ref}, universe);
      assert ([ref] + p)[1..] == p;
      assert EndsBadly([ref] + p, v, doc, seen, universe);
    }
  }

  lemma {:induction false} DecimalIsNumber(n: nat)
    ensures NumberText(Decimal(n))
  {
    if n >= 10 { DecimalIsNumber(n / 10); }
  }

  lemma PropertyWellFormed(v: Json, segment: Text)
    requires WellFormed(v)
    ensures Property(v, segment).Found? ==> WellFormed(Property(v, segment).value)
  {
    match v
    case Obj(members) =>
      if Lookup(members, segment).Some? { assert Member(segment, Lookup(members, segment).value) in members; }
    case Arr(items) => DecimalIsNumber(|items|);
    case Str(text) => DecimalIsNumber(|text|);
    case _ =>
  }

  lemma {:induction false} NavigateWellFormed(from: Target, segments: seq<Text>)
    requires from.Found? ==> WellFormed(from.value)
    ensures Navigate(from, segments).Found? ==> WellFormed(Navigate(from, segments).value)
    decreases |segments|
  {
    if segments != [] && from.Found? {
      PropertyWellFormed(from.value, segments[0]);
      NavigateWellFormed(Property(from.value, segments[0]), segments[1..]);
    }
  }

  lemma PointeeWellFormed(doc: Json, ref: Text)
    requires WellFormed(doc)
    ensures Pointee(doc, ref).Some? ==> WellFormed(Pointee(doc, ref).value)
  {
    if IsLocal(ref) { NavigateWellFormed(Found(doc), SplitSlash(ref[2..])); }
  }

  /** A local reference is left in the result exactly when following references leads back to one that
      is being expanded, or to an object misled by its own "$ref". */
  lemma {:induction false} UnresolvedIff(v: Json, doc: Json, seen: set<Text>, le: KeyOrder, universe: set<Text>)
    requires LocalRefs(v) + LocalRefs(doc) <= universe && Dereference(v, doc, seen, le, universe).Some?
    requires WellFormed(v) && WellFormed(doc)
    ensures Unresolved(Dereference(v, doc, seen, le, universe).value) <==> Leaves(v, doc, seen, universe)
    decreases |universe - seen|, v
  {
    if v.Arr? {
      ArrUnresolvedIff(v, doc, seen, le, universe);
    } else if LocalRef(v).Some? {
      RefUnresolvedIff(v, doc, seen, le, universe);
    } else if v.Obj? {
      ObjUnresolvedIff(v, doc, seen, le, universe);
    } else {
      assert forall p :: !EndsBadly(p, v, doc, seen, universe);
    }
  }

  lemma {:induction false} ArrUnresolvedIff(v: Json, doc: Json, seen: set<Text>, le: KeyOrder, universe: set<Text>)
    requires v.Arr? && LocalRefs(v) + LocalRefs(doc) <= universe && Dereference(v, doc, seen, le, universe).Some?
    requires WellFormed(v) && WellFormed(doc)
    ensures Unresolved(Dereference(v, doc, seen, le, universe).value) <==> Leaves(v, doc, seen, universe)
    decreases |universe - seen|, v, 0
  {
    PartResults(v, doc, seen, le, universe);
    ArrLeavesIff(v, doc, seen, universe);
    var o := Dereference(v, doc, seen, le, universe).value;
    forall i | 0 <= i < |v.items|
      ensures (ItemRefs(v, i); Unresolved(o.items[i]) <==> Leaves(v.items[i], doc, seen, universe))
    {
      ItemRefs(v, i);
      UnresolvedIff(v.items[i], doc, seen, le, universe);
    }
  }

  lemma {:induction false} FieldUnresolvedIff(
      v: Json, m: Member, doc: Json, seen: set<Text>, le: KeyOrder, universe: set<Text>)
    requires v.Obj? && LocalRef(v).None? && WellFormed(v) && WellFormed(doc) && m in v.members
    requires LocalRefs(v) + LocalRefs(doc) <= universe && LocalRefs(m.value) <= LocalRefs(v)
    requires Dereference(m.value, doc, seen, le, universe).Some?
    ensures var o := Dereference(m.value, doc, seen, le, universe).value;
            (IsLocalField((m.key, o)) || Unresolved(o)) <==> MemberLeaves(m, doc, seen, universe)
    decreases |universe - seen|, v, 0
  {
    UnresolvedIff(m.value, doc, seen, le, universe);
    LookupMember(v.members, m);
    if m.key == REF { LocalResultIff(m.value, doc, seen, le, universe); }
  }

  lemma KeptIsUnresolved(ref: Text)
    requires IsLocal(ref)
    ensures Unresolved(Kept(ref))
  {
    assert IsLocalField(Kept(ref).fields[0]);
  }

  lemma {:induction false} RefUnresolvedIff(v: Json, doc: Json, seen: set<Text>, le: KeyOrder, universe: set<Text>)
    requires LocalRef(v).Some? && WellFormed(doc)
    requires LocalRefs(v) + LocalRefs(doc) <= universe && Dereference(v, doc, seen, le, universe).Some?
    ensures Unresolved(Dereference(v, doc, seen, le, universe).value) <==> Leaves(v, doc, seen, universe)
    decreases |universe - seen|, v, 0
  {
    RefLeavesIff(v, doc, seen, universe);
    var ref := LocalRef(v).value;
    PointeeRefs(doc, ref);
    if ref in seen {
      KeptIsUnresolved(ref);
    } else if Pointee(doc, ref).Some? {
      Expanding(universe, seen, ref);
      PointeeWellFormed(doc, ref);
      UnresolvedIff(Pointee(doc, ref).value, doc, seen + {ref}, le, universe);
    }
  }

  lemma RecordUnresolvedIff(o: Out, flags: seq<bool>)
    requires o.Record? && |flags| == |o.fields|
    requires forall i :: 0 <= i < |flags| ==> flags[i] == (IsLocalField(o.fields[i]) || Unresolved(o.fields[i].1))
    ensures Unresolved(o) <==> true in flags
  {
  }

  ghost function LeavesAt(v: Json, ms: seq<Member>, doc: Json, seen: set<Text>, universe: set<Text>): (flags: seq<bool>)
    requires v.Obj? && LocalRefs(v) + LocalRefs(doc) <= universe && forall m :: m in ms ==> m in v.members
    ensures |flags| == |ms|
  {
    seq(|ms|, i requires 0 <= i < |ms| => (MemberRefs(v, ms[i]); MemberLeaves(ms[i], doc, seen, universe)))
  }

  lemma SomeMemberLeaves(v: Json, ms: seq<Member>, doc: Json, seen: set<Text>, universe: set<Text>)
    requires v.Obj? && LocalRefs(v) + LocalRefs(doc) <= universe && forall m :: m in ms <==> m in v.members
    ensures true in LeavesAt(v, ms, doc, seen, universe)
       <==> exists m :: m in v.members && (MemberRefs(v, m); MemberLeaves(m, doc, seen, universe))
  {
    var flags := LeavesAt(v, ms, doc, seen, universe);
    forall m | m in v.members && (MemberRefs(v, m); MemberLeaves(m, doc, seen, universe)) ensures true in flags {
      var i :| 0 <= i < |ms| && ms[i] == m;
      assert flags[i];
    }
    if true in flags {
      var i :| 0 <= i < |flags| && flags[i];
      MemberRefs(v, ms[i]);
      assert ms[i] in v.members && MemberLeaves(ms[i], doc, seen, universe);
    }
  }

  lemma {:induction false} ObjUnresolvedIff(v: Json, doc: Json, seen: set<Text>, le: KeyOrder, universe: set<Text>)
    requires v.Obj? && LocalRef(v).None? && WellFormed(v) && WellFormed(doc)
    requires LocalRefs(v) + LocalRefs(doc) <= universe && Dereference(v, doc, seen, le, universe).Some?
    ensures Unresolved(Dereference(v, doc, seen, le, universe).value) <==> Leaves(v, doc, seen, universe)
    decreases |universe - seen|, v, 1
  {
    PartResults(v, doc, seen, le, universe);
    ObjLeavesIff(v, doc, seen, universe);
    var o, sorted := Dereference(v, doc, seen, le, universe).value, SortMembers(v.members, le);
    var flags := LeavesAt(v, sorted, doc, seen, universe);
    SomeMemberLeaves(v, sorted, doc, seen, universe);
    forall i | 0 <= i < |sorted| ensures flags[i] == (IsLocalField(o.fields[i]) || Unresolved(o.fields[i].1)) {
      MemberRefs(v, sorted[i]);
      FieldUnresolvedIff(v, sorted[i], doc, seen, le, universe);
      assert o.fields[i] == (sorted[i].key, Dereference(sorted[i].value, doc, seen, le, universe).value);
    }
    RecordUnresolvedIff(o, flags);
  }
}
