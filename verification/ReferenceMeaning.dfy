/** What dereferencing yields: the document as it reads when references are followed on the way. */
module ReferenceMeaning {
  import opened JsText
  import opened Options
  import opened CanonicalJson
  import opened CanonicalEquality
  import opened OpenApiReferences
  import opened ReferenceCycles
  import opened ReferenceResults

  // ------------------------------------------------------------------ nothing to follow

  /** A value as a result. */
  function Embedded(v: Json): Out
    decreases v
  {
    match v
    case Arr(items) => List(seq(|items|, i requires 0 <= i < |items| => Embedded(items[i])))
    case Obj(members) =>
      Record(seq(|members|, i requires 0 <= i < |members| => (members[i].key, Embedded(members[i].value))))
    case _ => Leaf(v)
  }

  lemma AllSome(outs: seq<Option<Out>>, wanted: seq<Out>)
    requires |outs| == |wanted| && forall i :: 0 <= i < |outs| ==> outs[i] == Some(wanted[i])
    ensures ListOf(outs) == Some(List(wanted))
  {
    var values := seq(|outs|, i requires 0 <= i < |outs| => outs[i].value);
    assert values == wanted;
  }

  lemma AllFields(keys: seq<Text>, outs: seq<Option<Out>>, wanted: seq<(Text, Out)>)
    requires |outs| == |wanted| == |keys|
    requires forall i :: 0 <= i < |outs| ==> outs[i].Some? && wanted[i] == (keys[i], outs[i].value)
    ensures RecordOf(keys, outs) == Some(Record(wanted))
  {
    var fields := seq(|outs|, i requires 0 <= i < |outs| => (keys[i], outs[i].value));
    assert fields == wanted;
  }

  /** A value in which no reference is followed is itself, with its members sorted at every depth. */
  lemma {:induction false} NothingFollowed(v: Json, doc: Json, seen: set<Text>, le: KeyOrder, universe: set<Text>)
    requires LocalRefs(v) + LocalRefs(doc) <= universe && LiveRefs(v) == {}
    ensures Dereference(v, doc, seen, le, universe) == Some(Embedded(Normalize(v, le)))
    decreases v
  {
    if v.Arr? {
      ArrNothingFollowed(v, doc, seen, le, universe);
    } else if v.Obj? {
      ObjNothingFollowed(v, doc, seen, le, universe);
    }
  }

  lemma {:induction false} ArrNothingFollowed(v: Json, doc: Json, seen: set<Text>, le: KeyOrder, universe: set<Text>)
    requires v.Arr? && LocalRefs(v) + LocalRefs(doc) <= universe && LiveRefs(v) == {}
    ensures Dereference(v, doc, seen, le, universe) == Some(Embedded(Normalize(v, le)))
    decreases v, 0
  {
    var outs := seq(|v.items|, i requires 0 <= i < |v.items| =>
      assert v.items[i] in v.items; Dereference(v.items[i], doc, seen, le, universe));
    var n := Normalize(v, le);
    var wanted := seq(|n.items|, i requires 0 <= i < |n.items| => Embedded(n.items[i]));
    forall i | 0 <= i < |v.items| ensures outs[i] == Some(wanted[i]) {
      ItemRefs(v, i);
      NothingFollowed(v.items[i], doc, seen, le, universe);
    }
    AllSome(outs, wanted);
  }

  lemma {:induction false} ObjNothingFollowed(v: Json, doc: Json, seen: set<Text>, le: KeyOrder, universe: set<Text>)
    requires v.Obj? && LocalRefs(v) + LocalRefs(doc) <= universe && LiveRefs(v) == {}
    ensures Dereference(v, doc, seen, le, universe) == Some(Embedded(Normalize(v, le)))
    decreases v, 0
  {
    var sorted, n := SortMembers(v.members, le), Normalize(v, le);
    var outs := seq(|sorted|, i requires 0 <= i < |sorted| =>
      assert sorted[i] in v.members; Dereference(sorted[i].value, doc, seen, le, universe));
    var wanted := seq(|n.members|, i requires 0 <= i < |n.members| => (n.members[i].key, Embedded(n.members[i].value)));
    forall i | 0 <= i < |sorted| ensures outs[i].Some? && wanted[i] == (KeyList(sorted)[i], outs[i].value) {
      assert sorted[i] in v.members;
      MemberRefs(v, sorted[i]);
      NothingFollowed(sorted[i].value, doc, seen, le, universe);
    }
    AllFields(KeyList(sorted), outs, wanted);
  }

  // --------------------------------------------------------------- reading along a path

  datatype Step = Key(key: Text) | Index(at: nat)

  /** What stands at the end of a path: a value that is neither array nor object, an array or object without
      its parts, undefined, nothing, or an exception. */
  datatype View = Value(value: Json) | Elements(count: nat) | Keys(keys: seq<Text>) | Absent | Nowhere | Broken

  function ViewOf(o: Out): View {
    match o
    case Missing => Absent
    case Leaf(v) => Value(v)
    case List(items) => Elements(|items|)
    case Record(fields) => Keys(seq(|fields|, i requires 0 <= i < |fields| => fields[i].0))
  }

  function FieldNamed(fields: seq<(Text, Out)>, key: Text): Option<Out> {
    if fields == [] then None
    else if fields[0].0 == key then Some(fields[0].1)
    else FieldNamed(fields[1..], key)
  }

  /** Reading in the result. */
  function OutAt(o: Out, path: seq<Step>): View
    decreases |path|
  {
    if path == [] then ViewOf(o)
    else match path[0]
      case Index(i) => if o.List? && i < |o.items| then OutAt(o.items[i], path[1..]) else Nowhere
      case Key(k) =>
        if o.Record? && FieldNamed(o.fields, k).Some? then OutAt(FieldNamed(o.fields, k).value, path[1..]) else Nowhere
  }

  /** Reading in the document: before each step, and at the end, references are followed, except one that was
      followed before on this path. */
  function ReadAt(v: Json, doc: Json, seen: set<Text>, path: seq<Step>, le: KeyOrder, ghost universe: set<Text>): View
    requires LocalRefs(v) + LocalRefs(doc) <= universe
    decreases |path|, |universe - seen|
  {
    if LocalRef(v).Some? then
      var ref := LocalRef(v).value;
      if ref in seen then OutAt(Kept(ref), path)
      else
        NavigateRefs(Found(doc), SplitSlash(ref[2..]), doc);
        Expanding(universe, seen, ref);
        match Resolve(doc, ref)
        case Throws => Broken
        case Undefined => if path == [] then Absent else Nowhere
        case Found(w) => ReadAt(w, doc, seen + {ref}, path, le, universe)
    else if path == [] then
      if v.Arr? then Elements(|v.items|)
      else if v.Obj? then Keys(KeyList(SortMembers(v.members, le)))
      else Value(v)
    else match path[0]
      case Index(i) =>
        if v.Arr? && i < |v.items|
        then (ItemRefs(v, i); ReadAt(v.items[i], doc, seen, path[1..], le, universe))
        else Nowhere
      case Key(k) =>
        if v.Obj? && Lookup(v.members, k).Some?
        then (MemberRefs(v, Member(k, Lookup(v.members, k).value));
              ReadAt(Lookup(v.members, k).value, doc, seen, path[1..], le, universe))
        else Nowhere
  }

  lemma {:induction false} OutAtIsNotBroken(o: Out, path: seq<Step>)
    ensures !OutAt(o, path).Broken?
    decreases |path|
  {
    if path != [] {
      match path[0]
      case Index(i) => if o.List? && i < |o.items| { OutAtIsNotBroken(o.items[i], path[1..]); }
      case Key(k) =>
        if o.Record? && FieldNamed(o.fields, k).Some? { OutAtIsNotBroken(FieldNamed(o.fields, k).value, path[1..]); }
    }
  }

  lemma {:induction false} FieldAt(fields: seq<(Text, Out)>, i: nat)
    requires i < |fields| && forall j :: 0 <= j < i ==> fields[j].0 != fields[i].0
    ensures FieldNamed(fields, fields[i].0) == Some(fields[i].1)
  {
    if i > 0 {
      assert fields[1..][i - 1] == fields[i];
      FieldAt(fields[1..], i - 1);
    }
  }

  lemma {:induction false} NoField(fields: seq<(Text, Out)>, key: Text)
    requires forall j :: 0 <= j < |fields| ==> fields[j].0 != key
    ensures FieldNamed(fields, key).None?
  {
    if fields != [] { NoField(fields[1..], key); }
  }

  /** Fields that stand for the members, in their order. */
  lemma FieldsLookup(ms: seq<Member>, fields: seq<(Text, Out)>, m: Member) returns (i: nat)
    requires DistinctKeys(ms) && |ms| == |fields| && m in ms
    requires forall j :: 0 <= j < |ms| ==> fields[j].0 == ms[j].key
    ensures i < |ms| && ms[i] == m && FieldNamed(fields, m.key) == Some(fields[i].1)
  {
    i :| 0 <= i < |ms| && ms[i] == m;
    KeyListDistinct(ms);
    forall j | 0 <= j < i ensures fields[j].0 != fields[i].0 { assert KeyList(ms)[j] != KeyList(ms)[i]; }
    FieldAt(fields, i);
  }

  /** The field of the result that a member of the object becomes. */
  lemma FieldOfMember(v: Json, doc: Json, seen: set<Text>, le: KeyOrder, universe: set<Text>, m: Member)
    requires v.Obj? && LocalRef(v).None? && LocalRefs(v) + LocalRefs(doc) <= universe && DistinctKeys(v.members)
    requires Dereference(v, doc, seen, le, universe).Some? && m in v.members
    ensures var o := Dereference(v, doc, seen, le, universe).value;
            && o.Record? && LocalRefs(m.value) + LocalRefs(doc) <= universe && FieldNamed(o.fields, m.key).Some?
            && Dereference(m.value, doc, seen, le, universe) == FieldNamed(o.fields, m.key)
  {
    PartResults(v, doc, seen, le, universe);
    var o, sorted := Dereference(v, doc, seen, le, universe).value, SortMembers(v.members, le);
    SortMembersDistinct(v.members, le);
    MemberRefs(v, m);
    var i := FieldsLookup(sorted, o.fields, m);
    assert sorted[i] in v.members;
  }

  lemma NoFieldOfMember(v: Json, doc: Json, seen: set<Text>, le: KeyOrder, universe: set<Text>, k: Text)
    requires v.Obj? && LocalRef(v).None? && LocalRefs(v) + LocalRefs(doc) <= universe
    requires Dereference(v, doc, seen, le, universe).Some? && Lookup(v.members, k).None?
    ensures var o := Dereference(v, doc, seen, le, universe).value; o.Record? && FieldNamed(o.fields, k).None?
  {
    PartResults(v, doc, seen, le, universe);
    var o, sorted := Dereference(v, doc, seen, le, universe).value, SortMembers(v.members, le);
    forall j | 0 <= j < |o.fields| ensures o.fields[j].0 != k { assert sorted[j] in v.members; }
    NoField(o.fields, k);
  }

  /** The result reads along every path as the document does with references followed on the way. */
  lemma {:induction false} ReadsAlike(v: Json, doc: Json, seen: set<Text>, path: seq<Step>, le: KeyOrder, universe: set<Text>)
    requires LocalRefs(v) + LocalRefs(doc) <= universe && WellFormed(v) && WellFormed(doc)
    requires Dereference(v, doc, seen, le, universe).Some?
    ensures OutAt(Dereference(v, doc, seen, le, universe).value, path) == ReadAt(v, doc, seen, path, le, universe)
    decreases |path|, |universe - seen|, 1
  {
    if LocalRef(v).Some? {
      RefReadsAlike(v, doc, seen, path, le, universe);
    } else if v.Arr? || v.Obj? {
      if path == [] {
        ViewsAlike(v, doc, seen, le, universe);
      } else if v.Arr? {
        ItemReadsAlike(v, doc, seen, path, le, universe);
      } else {
        MemberReadsAlike(v, doc, seen, path, le, universe);
      }
    }
  }

  /** A reference that is followed is replaced by what it points to. */
  lemma FollowedReference(v: Json, doc: Json, seen: set<Text>, le: KeyOrder, universe: set<Text>)
    requires LocalRef(v).Some? && LocalRefs(v) + LocalRefs(doc) <= universe
    requires LocalRef(v).value !in seen && Resolve(doc, LocalRef(v).value).Found?
    ensures var ref := LocalRef(v).value;
            var w := Resolve(doc, ref).value;
            && LocalRefs(w) + LocalRefs(doc) <= universe
            && Dereference(v, doc, seen, le, universe) == Dereference(w, doc, seen + {ref}, le, universe)
  {
    NavigateRefs(Found(doc), SplitSlash(LocalRef(v).value[2..]), doc);
  }

  lemma FollowedReading(v: Json, doc: Json, seen: set<Text>, path: seq<Step>, le: KeyOrder, universe: set<Text>)
    requires LocalRef(v).Some? && LocalRefs(v) + LocalRefs(doc) <= universe
    requires LocalRef(v).value !in seen && Resolve(doc, LocalRef(v).value).Found?
    ensures var ref := LocalRef(v).value;
            var w := Resolve(doc, ref).value;
            && LocalRefs(w) + LocalRefs(doc) <= universe
            && ReadAt(v, doc, seen, path, le, universe) == ReadAt(w, doc, seen + {ref}, path, le, universe)
  {
    NavigateRefs(Found(doc), SplitSlash(LocalRef(v).value[2..]), doc);
  }

  lemma UnfollowedReading(v: Json, doc: Json, seen: set<Text>, path: seq<Step>, le: KeyOrder, universe: set<Text>)
    requires LocalRef(v).Some? && LocalRefs(v) + LocalRefs(doc) <= universe
    requires LocalRef(v).value in seen || Resolve(doc, LocalRef(v).value).Undefined?
    ensures Dereference(v, doc, seen, le, universe).Some?
    ensures OutAt(Dereference(v, doc, seen, le, universe).value, path) == ReadAt(v, doc, seen, path, le, universe)
  {
  }

  lemma {:induction false} RefReadsAlike(
      v: Json, doc: Json, seen: set<Text>, path: seq<Step>, le: KeyOrder, universe: set<Text>)
    requires LocalRef(v).Some? && LocalRefs(v) + LocalRefs(doc) <= universe && WellFormed(doc)
    requires Dereference(v, doc, seen, le, universe).Some?
    ensures OutAt(Dereference(v, doc, seen, le, universe).value, path) == ReadAt(v, doc, seen, path, le, universe)
    decreases |path|, |universe - seen|, 0
  {
    var ref := LocalRef(v).value;
    if ref !in seen && Resolve(doc, ref).Found? {
      FollowedReference(v, doc, seen, le, universe);
      FollowedReading(v, doc, seen, path, le, universe);
      Expanding(universe, seen, ref);
      PointeeWellFormed(doc, ref);
      ReadsAlike(Resolve(doc, ref).value, doc, seen + {ref}, path, le, universe);
    } else {
      UnfollowedReading(v, doc, seen, path, le, universe);
    }
  }

  lemma ViewsAlike(v: Json, doc: Json, seen: set<Text>, le: KeyOrder, universe: set<Text>)
    requires LocalRefs(v) + LocalRefs(doc) <= universe && LocalRef(v).None? && (v.Arr? || v.Obj?)
    requires Dereference(v, doc, seen, le, universe).Some?
    ensures ViewOf(Dereference(v, doc, seen, le, universe).value) == ReadAt(v, doc, seen, [], le, universe)
  {
    PartResults(v, doc, seen, le, universe);
    var o := Dereference(v, doc, seen, le, universe).value;
    if v.Obj? {
      var keys := seq(|o.fields|, i requires 0 <= i < |o.fields| => o.fields[i].0);
      assert keys == KeyList(SortMembers(v.members, le));
    }
  }

  lemma {:induction false} ItemReadsAlike(
      v: Json, doc: Json, seen: set<Text>, path: seq<Step>, le: KeyOrder, universe: set<Text>)
    requires LocalRefs(v) + LocalRefs(doc) <= universe && WellFormed(v) && WellFormed(doc)
    requires Dereference(v, doc, seen, le, universe).Some? && v.Arr? && path != []
    ensures OutAt(Dereference(v, doc, seen, le, universe).value, path) == ReadAt(v, doc, seen, path, le, universe)
    decreases |path|, |universe - seen|, 0
  {
    PartResults(v, doc, seen, le, universe);
    if path[0].Index? && path[0].at < |v.items| {
      ItemRefs(v, path[0].at);
      ReadsAlike(v.items[path[0].at], doc, seen, path[1..], le, universe);
    }
  }

  lemma {:induction false} MemberReadsAlike(
      v: Json, doc: Json, seen: set<Text>, path: seq<Step>, le: KeyOrder, universe: set<Text>)
    requires LocalRefs(v) + LocalRefs(doc) <= universe && WellFormed(v) && WellFormed(doc) && LocalRef(v).None?
    requires Dereference(v, doc, seen, le, universe).Some? && v.Obj? && path != []
    ensures OutAt(Dereference(v, doc, seen, le, universe).value, path) == ReadAt(v, doc, seen, path, le, universe)
    decreases |path|, |universe - seen|, 0
  {
    if path[0].Key? {
      var k := path[0].key;
      if Lookup(v.members, k).Some? {
        var m := Member(k, Lookup(v.members, k).value);
        FieldOfMember(v, doc, seen, le, universe, m);
        ReadsAlike(m.value, doc, seen, path[1..], le, universe);
      } else {
        NoFieldOfMember(v, doc, seen, le, universe, k);
      }
    } else {
      PartResults(v, doc, seen, le, universe);
    }
  }

  // ------------------------------------------------------------------------- exceptions

  lemma {:induction false} BrokenReading(v: Json, doc: Json, seen: set<Text>, le: KeyOrder, universe: set<Text>)
    returns (path: seq<Step>)
    requires LocalRefs(v) + LocalRefs(doc) <= universe && WellFormed(v) && WellFormed(doc)
    requires Dereference(v, doc, seen, le, universe).None?
    ensures ReadAt(v, doc, seen, path, le, universe).Broken?
    decreases |universe - seen|, v, 1
  {
    if LocalRef(v).Some? {
      path := [];
      var ref := LocalRef(v).value;
      if Resolve(doc, ref).Found? {
        NavigateRefs(Found(doc), SplitSlash(ref[2..]), doc);
        Expanding(universe, seen, ref);
        PointeeWellFormed(doc, ref);
        path := BrokenReading(Resolve(doc, ref).value, doc, seen + {ref}, le, universe);
      }
    } else if v.Arr? {
      path := BrokenItem(v, doc, seen, le, universe);
    } else {
      path := BrokenMember(v, doc, seen, le, universe);
    }
  }

  lemma {:induction false} BrokenItem(v: Json, doc: Json, seen: set<Text>, le: KeyOrder, universe: set<Text>)
    returns (path: seq<Step>)
    requires v.Arr? && LocalRefs(v) + LocalRefs(doc) <= universe && WellFormed(v) && WellFormed(doc)
    requires Dereference(v, doc, seen, le, universe).None?
    ensures ReadAt(v, doc, seen, path, le, universe).Broken?
    decreases |universe - seen|, v, 0
  {
    var outs := seq(|v.items|, i requires 0 <= i < |v.items| =>
      assert v.items[i] in v.items; Dereference(v.items[i], doc, seen, le, universe));
    assert Dereference(v, doc, seen, le, universe) == ListOf(outs);
    var i :| 0 <= i < |outs| && outs[i] == None;
    ItemRefs(v, i);
    var rest := BrokenReading(v.items[i], doc, seen, le, universe);
    path := [Index(i)] + rest;
    assert path[1..] == rest;
  }

  lemma {:induction false} BrokenMember(v: Json, doc: Json, seen: set<Text>, le: KeyOrder, universe: set<Text>)
    returns (path: seq<Step>)
    requires v.Obj? && LocalRef(v).None? && LocalRefs(v) + LocalRefs(doc) <= universe && WellFormed(v) && WellFormed(doc)
    requires Dereference(v, doc, seen, le, universe).None?
    ensures ReadAt(v, doc, seen, path, le, universe).Broken?
    decreases |universe - seen|, v, 0
  {
    var sorted := SortMembers(v.members, le);
    var outs := seq(|sorted|, i requires 0 <= i < |sorted| =>
      assert sorted[i] in v.members; Dereference(sorted[i].value, doc, seen, le, universe));
    assert Dereference(v, doc, seen, le, universe) == RecordOf(KeyList(sorted), outs);
    var i :| 0 <= i < |outs| && outs[i] == None;
    assert sorted[i] in v.members;
    MemberRefs(v, sorted[i]);
    LookupMember(v.members, sorted[i]);
    var rest := BrokenReading(sorted[i].value, doc, seen, le, universe);
    path := [Key(sorted[i].key)] + rest;
    assert path[1..] == rest;
  }

  /** Dereferencing throws exactly when some path meets a reference that steps through null or undefined. */
  lemma ThrowsIff(v: Json, doc: Json, seen: set<Text>, le: KeyOrder, universe: set<Text>)
    requires LocalRefs(v) + LocalRefs(doc) <= universe && WellFormed(v) && WellFormed(doc)
    ensures Dereference(v, doc, seen, le, universe).None? <==> exists path :: ReadAt(v, doc, seen, path, le, universe).Broken?
  {
    if Dereference(v, doc, seen, le, universe).None? {
      var path := BrokenReading(v, doc, seen, le, universe);
    } else {
      forall path ensures !ReadAt(v, doc, seen, path, le, universe).Broken? {
        ReadsAlike(v, doc, seen, path, le, universe);
        OutAtIsNotBroken(Dereference(v, doc, seen, le, universe).value, path);
      }
    }
  }

  // -------------------------------------------------------------- what a reference becomes

  /** No walk from v comes back to a reference of seen, or to one of its own. */
  ghost predicate NeverMeets(v: Json, doc: Json, seen: set<Text>) {
    forall p :: IsWalk(p, v, doc) ==> p[|p| - 1] !in seen && p[|p| - 1] !in p[..|p| - 1]
  }

  lemma WalkFromPartOf(part: Json, v: Json, doc: Json, seen: set<Text>)
    requires NeverMeets(v, doc, seen) && LiveRefs(part) <= LiveRefs(v)
    ensures NeverMeets(part, doc, seen)
  {
    forall p | IsWalk(p, part, doc) ensures p[|p| - 1] !in seen && p[|p| - 1] !in p[..|p| - 1] {
      assert IsWalk(p, v, doc);
    }
  }

  lemma WalkCons(ref: Text, p: seq<Text>, v: Json, doc: Json)
    requires LocalRef(v) == Some(ref) && Pointee(doc, ref).Some? && IsWalk(p, Pointee(doc, ref).value, doc)
    ensures IsWalk([ref] + p, v, doc)
  {
    var q := [ref] + p;
    forall i | 0 <= i < |q| - 1 ensures Pointee(doc, q[i]).Some? && q[i + 1] in LiveRefs(Pointee(doc, q[i]).value) {
      if i > 0 { assert q[i] == p[i - 1] && q[i + 1] == p[i - 1 + 1]; }
    }
  }

  lemma NotMet(ref: Text, v: Json, doc: Json, seen: set<Text>)
    requires NeverMeets(v, doc, seen) && LocalRef(v) == Some(ref)
    ensures ref !in seen
  {
    assert IsWalk([ref], v, doc);
  }

  lemma PointsNowhere(v: Json, doc: Json, seen: set<Text>, le: KeyOrder, universe: set<Text>)
    requires LocalRef(v).Some? && LocalRefs(v) + LocalRefs(doc) <= universe
    requires LocalRef(v).value !in seen && !Resolve(doc, LocalRef(v).value).Found?
    ensures Dereference(v, doc, seen, le, universe)
         == if Resolve(doc, LocalRef(v).value).Throws? then None else Some(Missing)
  {
  }

  /** Beyond a reference, it is not met again either. */
  lemma WalkBeyond(ref: Text, v: Json, doc: Json, seen: set<Text>)
    requires NeverMeets(v, doc, seen) && LocalRef(v) == Some(ref) && Pointee(doc, ref).Some?
    ensures ref !in seen && NeverMeets(Pointee(doc, ref).value, doc, seen + {ref})
  {
    assert IsWalk([ref], v, doc);
    var w := Pointee(doc, ref).value;
    forall p | IsWalk(p, w, doc) ensures p[|p| - 1] !in seen + {ref} && p[|p| - 1] !in p[..|p| - 1] {
      WalkCons(ref, p, v, doc);
      var q := [ref] + p;
      assert q[|q| - 1] == p[|p| - 1] && q[..|q| - 1] == [ref] + p[..|p| - 1];
    }
  }

  /** What was followed before does not matter where it is not met, nor how many references there are. */
  lemma {:induction false} SeenIsIrrelevant(
      v: Json, doc: Json, seen: set<Text>, seen': set<Text>, le: KeyOrder, universe: set<Text>, universe': set<Text>)
    requires LocalRefs(v) + LocalRefs(doc) <= universe && LocalRefs(v) + LocalRefs(doc) <= universe'
    requires NeverMeets(v, doc, seen) && NeverMeets(v, doc, seen')
    ensures Dereference(v, doc, seen, le, universe) == Dereference(v, doc, seen', le, universe')
    decreases |universe - seen|, v, 1
  {
    if LocalRef(v).Some? {
      RefSeenIrrelevant(v, doc, seen, seen', le, universe, universe');
    } else if v.Arr? {
      var outs := seq(|v.items|, i requires 0 <= i < |v.items| =>
        assert v.items[i] in v.items; Dereference(v.items[i], doc, seen, le, universe));
      var outs' := seq(|v.items|, i requires 0 <= i < |v.items| =>
        assert v.items[i] in v.items; Dereference(v.items[i], doc, seen', le, universe'));
      forall i | 0 <= i < |v.items| ensures outs[i] == outs'[i] {
        ItemRefs(v, i);
        WalkFromPartOf(v.items[i], v, doc, seen);
        WalkFromPartOf(v.items[i], v, doc, seen');
        SeenIsIrrelevant(v.items[i], doc, seen, seen', le, universe, universe');
      }
      assert outs == outs';
    } else if v.Obj? {
      ObjSeenIrrelevant(v, doc, seen, seen', le, universe, universe');
    }
  }

  lemma {:induction false} ObjSeenIrrelevant(
      v: Json, doc: Json, seen: set<Text>, seen': set<Text>, le: KeyOrder, universe: set<Text>, universe': set<Text>)
    requires v.Obj? && LocalRef(v).None?
    requires LocalRefs(v) + LocalRefs(doc) <= universe && LocalRefs(v) + LocalRefs(doc) <= universe'
    requires NeverMeets(v, doc, seen) && NeverMeets(v, doc, seen')
    ensures Dereference(v, doc, seen, le, universe) == Dereference(v, doc, seen', le, universe')
    decreases |universe - seen|, v, 0
  {
    var sorted := SortMembers(v.members, le);
    var outs := seq(|sorted|, i requires 0 <= i < |sorted| =>
      assert sorted[i] in v.members; Dereference(sorted[i].value, doc, seen, le, universe));
    var outs' := seq(|sorted|, i requires 0 <= i < |sorted| =>
      assert sorted[i] in v.members; Dereference(sorted[i].value, doc, seen', le, universe'));
    forall i | 0 <= i < |sorted| ensures outs[i] == outs'[i] {
      assert sorted[i] in v.members;
      MemberRefs(v, sorted[i]);
      WalkFromPartOf(sorted[i].value, v, doc, seen);
      WalkFromPartOf(sorted[i].value, v, doc, seen');
      SeenIsIrrelevant(sorted[i].value, doc, seen, seen', le, universe, universe');
    }
    assert outs == outs';
  }

  lemma {:induction false} RefSeenIrrelevant(
      v: Json, doc: Json, seen: set<Text>, seen': set<Text>, le: KeyOrder, universe: set<Text>, universe': set<Text>)
    requires LocalRef(v).Some?
    requires LocalRefs(v) + LocalRefs(doc) <= universe && LocalRefs(v) + LocalRefs(doc) <= universe'
    requires NeverMeets(v, doc, seen) && NeverMeets(v, doc, seen')
    ensures Dereference(v, doc, seen, le, universe) == Dereference(v, doc, seen', le, universe')
    decreases |universe - seen|, v, 0
  {
    var ref := LocalRef(v).value;
    NotMet(ref, v, doc, seen);
    NotMet(ref, v, doc, seen');
    if !Resolve(doc, ref).Found? {
      PointsNowhere(v, doc, seen, le, universe);
      PointsNowhere(v, doc, seen', le, universe');
    } else {
      FollowedReference(v, doc, seen, le, universe);
      FollowedReference(v, doc, seen', le, universe');
      Expanding(universe, seen, ref);
      WalkBeyond(ref, v, doc, seen);
      WalkBeyond(ref, v, doc, seen');
      SeenIsIrrelevant(Resolve(doc, ref).value, doc, seen + {ref}, seen' + {ref}, le, universe, universe');
    }
  }

  /** Where the references do not form a cycle, a reference becomes exactly what its pointee becomes: an
      exception if following it throws, undefined if there is nothing. */
  lemma ReferenceBecomesPointee(v: Json, doc: Json, le: KeyOrder)
    requires LocalRef(v).Some? && !Cyclic(v, doc)
    ensures Dereferenced(v, doc, le)
         == match Resolve(doc, LocalRef(v).value)
            case Throws => None
            case Undefined => Some(Missing)
            case Found(w) => Dereferenced(w, doc, le)
  {
    var ref := LocalRef(v).value;
    if Resolve(doc, ref).Found? {
      var w := Resolve(doc, ref).value;
      FollowedReference(v, doc, {}, le, LocalRefs(v) + LocalRefs(doc));
      NavigateRefs(Found(doc), SplitSlash(ref[2..]), doc);
      WalkBeyond(ref, v, doc, {});
      forall p | IsWalk(p, w, doc) ensures p[|p| - 1] !in {} && p[|p| - 1] !in p[..|p| - 1] {}
      SeenIsIrrelevant(w, doc, {} + {ref}, {}, le, LocalRefs(v) + LocalRefs(doc), LocalRefs(w) + LocalRefs(doc));
    }
  }

  // ------------------------------------------------------------------- where it points to

  /** The number that digits write. */
  function Written(digits: Text): nat {
    if digits == [] then 0
    else
      var d := digits[|digits| - 1] as nat;
      10 * Written(digits[..|digits| - 1]) + (if 48 <= d <= 57 then d - 48 else 0)
  }

  lemma {:induction false} DecimalIsWritten(n: nat)
    ensures Written(Decimal(n)) == n
    ensures Decimal(n) != [] && 48 <= Decimal(n)[0] <= 57
  {
    if n >= 10 {
      DecimalIsWritten(n / 10);
      assert Decimal(n)[..|Decimal(n)| - 1] == Decimal(n / 10);
    } else {
      assert Decimal(n)[..0] == [];
    }
  }

  /** The properties of a value: members, elements by index, code units, and lengths. */
  predicate Has(v: Json, segment: Text, x: Json) {
    match v
    case Obj(members) => Member(segment, x) in members
    case Arr(items) =>
      || (segment == LENGTH && x == Num(Decimal(|items|)))
      || exists i :: 0 <= i < |items| && segment == Decimal(i) && x == items[i]
    case Str(text) =>
      || (segment == LENGTH && x == Num(Decimal(|text|)))
      || exists i :: 0 <= i < |text| && segment == Decimal(i) && x == Str([text[i]])
    case _ => false
  }

  lemma {:induction false} ElementIff<T>(xs: seq<T>, segment: Text, from: nat)
    requires from <= |xs|
    ensures forall i :: from <= i < |xs| && segment == Decimal(i) ==> ElementAt(xs, segment, from) == Some(xs[i])
    ensures ElementAt(xs, segment, from).Some? ==>
              exists i :: from <= i < |xs| && segment == Decimal(i) && ElementAt(xs, segment, from) == Some(xs[i])
    decreases |xs| - from
  {
    if from < |xs| {
      ElementIff(xs, segment, from + 1);
      forall i | from <= i < |xs| && segment == Decimal(i) ensures ElementAt(xs, segment, from) == Some(xs[i]) {
        DecimalIsWritten(i);
        DecimalIsWritten(from);
      }
    }
  }

  lemma LengthIsNoIndex(i: nat)
    ensures Decimal(i) != LENGTH
  {
    DecimalIsWritten(i);
  }

  lemma PropertyIff(v: Json, segment: Text, x: Json)
    requires WellFormed(v)
    ensures Property(v, segment) == Found(x) <==> Has(v, segment, x)
  {
    match v
    case Obj(members) => if Member(segment, x) in members { LookupMember(members, Member(segment, x)); }
    case Arr(items) =>
      ElementIff(items, segment, 0);
      forall i | 0 <= i < |items| ensures Decimal(i) != LENGTH { LengthIsNoIndex(i); }
    case Str(text) =>
      ElementIff(text, segment, 0);
      forall i | 0 <= i < |text| ensures Decimal(i) != LENGTH { LengthIsNoIndex(i); }
    case _ =>
  }

  /** w is reached from v by the properties, one after the other. */
  ghost predicate Reaches(v: Json, segments: seq<Text>, w: Json)
    decreases |segments|
  {
    if segments == [] then v == w else exists x :: Has(v, segments[0], x) && Reaches(x, segments[1..], w)
  }

  lemma {:induction false} NavigateIff(v: Json, segments: seq<Text>, w: Json)
    requires WellFormed(v)
    ensures Navigate(Found(v), segments) == Found(w) <==> Reaches(v, segments, w)
    decreases |segments|
  {
    if segments != [] {
      var t := Property(v, segments[0]);
      PropertyWellFormed(v, segments[0]);
      forall x ensures t == Found(x) <==> Has(v, segments[0], x) { PropertyIff(v, segments[0], x); }
      if t.Found? {
        NavigateIff(t.value, segments[1..], w);
      } else {
        NavigateFails(t, segments[1..]);
      }
    }
  }

  lemma NavigateFails(t: Target, segments: seq<Text>)
    requires !t.Found?
    ensures !Navigate(t, segments).Found?
  {
  }

  /** "#/" and the segments, joined by slashes. */
  function Pointer(segments: seq<Text>): Text
    requires segments != []
  {
    [NUMBER_SIGN, SLASH] + Slashed(segments)
  }

  function Slashed(segments: seq<Text>): Text
    requires segments != []
  {
    if |segments| == 1 then segments[0] else segments[0] + [SLASH] + Slashed(segments[1..])
  }

  lemma {:induction false} SplitOne(segment: Text)
    requires SLASH !in segment
    ensures SplitSlash(segment) == [segment]
  {
    if segment != [] {
      SplitOne(segment[1..]);
      assert [segment[0]] + segment[1..] == segment;
    }
  }

  lemma {:induction false} SplitFirst(segment: Text, rest: Text)
    requires SLASH !in segment
    ensures SplitSlash(segment + [SLASH] + rest) == [segment] + SplitSlash(rest)
  {
    var t := segment + [SLASH] + rest;
    if segment == [] {
      assert t[1..] == rest;
    } else {
      SplitFirst(segment[1..], rest);
      assert t[1..] == segment[1..] + [SLASH] + rest;
      assert [segment[0]] + segment[1..] == segment;
    }
  }

  lemma {:induction false} SplitSlashed(segments: seq<Text>)
    requires segments != [] && forall s :: s in segments ==> SLASH !in s
    ensures SplitSlash(Slashed(segments)) == segments
  {
    if |segments| == 1 {
      SplitOne(segments[0]);
    } else {
      SplitSlashed(segments[1..]);
      SplitFirst(segments[0], Slashed(segments[1..]));
    }
  }

  /** A pointer written from segments without slashes points exactly to what those properties reach. */
  lemma PointsTo(doc: Json, segments: seq<Text>, w: Json)
    requires WellFormed(doc) && segments != [] && forall s :: s in segments ==> SLASH !in s
    ensures IsLocal(Pointer(segments)) && (Resolve(doc, Pointer(segments)) == Found(w) <==> Reaches(doc, segments, w))
  {
    assert Pointer(segments)[2..] == Slashed(segments);
    SplitSlashed(segments);
    NavigateIff(doc, segments, w);
  }
}
