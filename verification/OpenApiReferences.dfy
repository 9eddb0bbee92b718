/** dereference (scripts/openapi-semantic-snapshot.ts): every local reference of an OpenAPI document is
    replaced by what it points to, members are sorted, and a reference met again inside its own
    expansion is left as it is. */
module OpenApiReferences {
  import opened JsText
  import opened Options
  import opened CanonicalJson
  import opened CanonicalEquality

  const REF: Text := [36, 114, 101, 102]
  const NUMBER_SIGN: CodeUnit := 35
  const LENGTH: Text := [108, 101, 110, 103, 116, 104]

  /** startsWith("#/"). */
  predicate IsLocal(t: Text) {
    |t| >= 2 && t[0] == NUMBER_SIGN && t[1] == SLASH
  }

  /** The reference an object is replaced for. */
  function LocalRef(v: Json): Option<Text> {
    if v.Obj? then
      var x := Lookup(v.members, REF);
      if x.Some? && x.value.Str? && IsLocal(x.value.text) then Some(x.value.text) else None
    else None
  }

  // ----------------------------------------------------------------- following a reference

  function SplitSlash(t: Text): (parts: seq<Text>)
    ensures parts != []
  {
    if t == [] then [[]]
    else
      var rest := SplitSlash(t[1..]);
      if t[0] == SLASH then [[]] + rest else [[t[0]] + rest[0]] + rest[1..]
  }

  /** The element whose index is written as the segment. */
  function ElementAt<T>(xs: seq<T>, segment: Text, from: nat): (r: Option<T>)
    requires from <= |xs|
    ensures r.Some? ==> r.value in xs
    decreases |xs| - from
  {
    if from == |xs| then None
    else if Decimal(from) == segment then Some(xs[from])
    else ElementAt(xs, segment, from + 1)
  }

  /** A property access: on null or undefined it throws. */
  datatype Target = Throws | Undefined | Found(value: Json)

  function Property(v: Json, segment: Text): Target {
    match v
    case Null => Throws
    case Obj(members) => (match Lookup(members, segment) case None => Undefined case Some(x) => Found(x))
    case Arr(items) =>
      if segment == LENGTH then Found(Num(Decimal(|items|)))
      else (match ElementAt(items, segment, 0) case None => Undefined case Some(x) => Found(x))
    case Str(text) =>
      if segment == LENGTH then Found(Num(Decimal(|text|)))
      else (match ElementAt(text, segment, 0) case None => Undefined case Some(c) => Found(Str([c])))
    case _ => Undefined
  }

  function Navigate(from: Target, segments: seq<Text>): Target
    decreases |segments|
  {
    if segments == [] then from
    else match from
      case Found(v) => Navigate(Property(v, segments[0]), segments[1..])
      case _ => Throws
  }

  function Resolve(doc: Json, ref: Text): Target
    requires IsLocal(ref)
  {
    Navigate(Found(doc), SplitSlash(ref[2..]))
  }

  // ------------------------------------------------------------------------ dereferencing

  /** Every local reference written anywhere in the value. */
  function LocalRefs(v: Json): set<Text>
    decreases v
  {
    match v
    case Arr(items) => set x, r | x in items && r in LocalRefs(x) :: r
    case Obj(members) =>
      (if LocalRef(v).Some? then {LocalRef(v).value} else {})
      + (set m, r | m in members && r in LocalRefs(m.value) :: r)
    case _ => {}
  }

  lemma PropertyRefs(v: Json, segment: Text)
    ensures Property(v, segment).Found? ==> LocalRefs(Property(v, segment).value) <= LocalRefs(v)
  {
    if v.Obj? && Lookup(v.members, segment).Some? {
      assert Member(segment, Lookup(v.members, segment).value) in v.members;
    }
  }

  lemma {:induction false} NavigateRefs(from: Target, segments: seq<Text>, doc: Json)
    requires from.Found? ==> LocalRefs(from.value) <= LocalRefs(doc)
    ensures var t := Navigate(from, segments); t.Found? ==> LocalRefs(t.value) <= LocalRefs(doc)
    decreases |segments|
  {
    if segments != [] && from.Found? {
      PropertyRefs(from.value, segments[0]);
      NavigateRefs(Property(from.value, segments[0]), segments[1..], doc);
    }
  }

  /** What replaces a value; an object may get members that are undefined. */
  datatype Out = Missing | Leaf(value: Json) | List(items: seq<Out>) | Record(fields: seq<(Text, Out)>)

  function Kept(ref: Text): Out {
    Record([(REF, Leaf(Str(ref)))])
  }

  /** An exception in any part is an exception of the whole. */
  function ListOf(outs: seq<Option<Out>>): Option<Out> {
    if None in outs then None else Some(List(seq(|outs|, i requires 0 <= i < |outs| => outs[i].value)))
  }

  function RecordOf(keys: seq<Text>, outs: seq<Option<Out>>): Option<Out>
    requires |keys| == |outs|
  {
    if None in outs then None else Some(Record(seq(|outs|, i requires 0 <= i < |outs| => (keys[i], outs[i].value))))
  }

  lemma Expanding(universe: set<Text>, seen: set<Text>, ref: Text)
    requires ref in universe && ref !in seen
    ensures |universe - (seen + {ref})| < |universe - seen|
  {
    assert universe - (seen + {ref}) == (universe - seen) - {ref};
  }

  /** None: an exception. Each step meets fewer references not yet seen, or a smaller value. */
  function Dereference(v: Json, doc: Json, seen: set<Text>, le: KeyOrder, ghost universe: set<Text>): Option<Out>
    requires LocalRefs(v) + LocalRefs(doc) <= universe
    decreases |universe - seen|, v
  {
    if v.Arr? then
      var outs := seq(|v.items|, i requires 0 <= i < |v.items| =>
        assert v.items[i] in v.items; Dereference(v.items[i], doc, seen, le, universe));
      ListOf(outs)
    else if !v.Obj? then Some(Leaf(v))
    else if LocalRef(v).Some? then
      var ref := LocalRef(v).value;
      if ref in seen then Some(Kept(ref))
      else
        var target := Resolve(doc, ref);
        NavigateRefs(Found(doc), SplitSlash(ref[2..]), doc);
        Expanding(universe, seen, ref);
        match target
        case Throws => None
        case Undefined => Some(Missing)
        case Found(w) => Dereference(w, doc, seen + {ref}, le, universe)
    else
      var sorted := SortMembers(v.members, le);
      var outs := seq(|sorted|, i requires 0 <= i < |sorted| =>
        assert sorted[i] in v.members; Dereference(sorted[i].value, doc, seen, le, universe));
      RecordOf(KeyList(sorted), outs)
  }

  /** dereference(value, document, new Set()). */
  function Dereferenced(v: Json, doc: Json, le: KeyOrder): Option<Out> {
    Dereference(v, doc, {}, le, LocalRefs(v) + LocalRefs(doc))
  }
}
