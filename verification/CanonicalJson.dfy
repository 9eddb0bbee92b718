/** canonicalJson (server/usecases/external-resources.ts, server/usecases/agent-identities.ts):
    JSON printed with the members of every object sorted by key. */
module CanonicalJson {
  import opened JsText
  import opened Options
  import opened Sequences

  /** A JSON value of RFC 8259. A number is named by the text JSON.stringify prints for it; an
      object lists its members in the order Object.entries enumerates them. */
  datatype Json =
    | Null
    | Bool(truth: bool)
    | Num(digits: Text)
    | Str(text: Text)
    | Arr(items: seq<Json>)
    | Obj(members: seq<Member>)

  datatype Member = Member(key: Text, value: Json)

  /** Key comparison, `left.localeCompare(right) <= 0`: any total preorder. Two different keys
      may compare equal, as canonically equivalent Unicode strings do. */
  type KeyOrder = (Text, Text) -> bool

  ghost predicate TotalPreorder(le: KeyOrder) {
    && (forall a, b :: le(a, b) || le(b, a))
    && (forall a, b, c :: le(a, b) && le(b, c) ==> le(a, c))
  }

  ghost predicate Tied(a: Text, b: Text, le: KeyOrder) {
    le(a, b) && le(b, a)
  }

  predicate IsNumberUnit(c: CodeUnit) {
    48 <= c <= 57 || c == MINUS || c == PLUS || c == DOT || c == 101
  }

  predicate NumberText(t: Text) {
    t != [] && (48 <= t[0] <= 57 || t[0] == MINUS) && forall i :: 0 <= i < |t| ==> IsNumberUnit(t[i])
  }

  /** No key occurs twice. */
  ghost predicate DistinctKeys(ms: seq<Member>) {
    ms == [] || (Lookup(ms[1..], ms[0].key).None? && DistinctKeys(ms[1..]))
  }

  ghost predicate WellFormed(v: Json) {
    match v
    case Num(digits) => NumberText(digits)
    case Arr(items) => forall x :: x in items ==> WellFormed(x)
    case Obj(members) => DistinctKeys(members) && forall m :: m in members ==> WellFormed(m.value)
    case _ => true
  }

  /** `record[key]` on a plain object; None stands for undefined. */
  function Lookup(ms: seq<Member>, key: Text): (r: Option<Json>)
    ensures r.Some? ==> Member(key, r.value) in ms
    ensures r.None? ==> forall m :: m in ms ==> m.key != key
  {
    if ms == [] then None
    else if ms[0].key == key then assert ms[0] == Member(key, ms[0].value); Some(ms[0].value)
    else Lookup(ms[1..], key)
  }

  ghost predicate KeysDiffer(ms: seq<Member>) {
    forall i, j :: 0 <= i < j < |ms| ==> ms[i].key != ms[j].key
  }

  lemma {:induction false} DistinctKeysDiffer(ms: seq<Member>)
    ensures DistinctKeys(ms) <==> KeysDiffer(ms)
  {
    if ms != [] {
      DistinctKeysDiffer(ms[1..]);
      if KeysDiffer(ms) {
        forall m | m in ms[1..] ensures m.key != ms[0].key {}
        assert KeysDiffer(ms[1..]);
      }
      if DistinctKeys(ms) {
        forall i, j | 0 <= i < j < |ms| ensures ms[i].key != ms[j].key {
          assert ms[j] == ms[1..][j - 1];
          if i > 0 { assert ms[i] == ms[1..][i - 1]; } else { assert ms[j] in ms[1..]; }
        }
      }
    }
  }

  lemma {:induction false} LookupMember(ms: seq<Member>, m: Member)
    requires DistinctKeys(ms) && m in ms
    ensures Lookup(ms, m.key) == Some(m.value)
  {
    if ms[0] != m { LookupMember(ms[1..], m); }
  }

  // ---------------------------------------------------------------- sorting the members

  function Insert(m: Member, sorted: seq<Member>, le: KeyOrder): (r: seq<Member>)
    ensures |r| == |sorted| + 1
    ensures forall x :: x in r <==> x == m || x in sorted
  {
    if sorted == [] then [m]
    else if le(m.key, sorted[0].key) then [m] + sorted
    else [sorted[0]] + Insert(m, sorted[1..], le)
  }

  /** The stable sort of Array.prototype.sort, on keys. */
  function SortMembers(ms: seq<Member>, le: KeyOrder): (r: seq<Member>)
    ensures |r| == |ms|
    ensures forall x :: x in r <==> x in ms
  {
    if ms == [] then [] else Insert(ms[0], SortMembers(ms[1..], le), le)
  }

  ghost predicate Sorted(ms: seq<Member>, le: KeyOrder) {
    forall i, j :: 0 <= i < j < |ms| ==> le(ms[i].key, ms[j].key)
  }

  lemma {:induction false} InsertSorted(m: Member, sorted: seq<Member>, le: KeyOrder)
    requires TotalPreorder(le) && Sorted(sorted, le)
    ensures Sorted(Insert(m, sorted, le), le)
  {
    if sorted != [] && !le(m.key, sorted[0].key) {
      InsertSorted(m, sorted[1..], le);
      var r := Insert(m, sorted[1..], le);
      forall x | x in r ensures le(sorted[0].key, x.key) {}
    }
  }

  lemma {:induction false} SortMembersSorted(ms: seq<Member>, le: KeyOrder)
    requires TotalPreorder(le)
    ensures Sorted(SortMembers(ms, le), le)
  {
    if ms != [] {
      SortMembersSorted(ms[1..], le);
      InsertSorted(ms[0], SortMembers(ms[1..], le), le);
    }
  }

  lemma {:induction false} InsertDistinct(m: Member, sorted: seq<Member>, le: KeyOrder)
    requires DistinctKeys(sorted) && forall x :: x in sorted ==> x.key != m.key
    ensures DistinctKeys(Insert(m, sorted, le))
  {
    if sorted != [] && !le(m.key, sorted[0].key) {
      InsertDistinct(m, sorted[1..], le);
      var r := Insert(m, sorted[1..], le);
      forall x | x in r ensures sorted[0].key != x.key {}
    }
  }

  lemma {:induction false} SortMembersDistinct(ms: seq<Member>, le: KeyOrder)
    requires DistinctKeys(ms)
    ensures DistinctKeys(SortMembers(ms, le))
  {
    if ms != [] {
      SortMembersDistinct(ms[1..], le);
      InsertDistinct(ms[0], SortMembers(ms[1..], le), le);
    }
  }

  // ------------------------------------------------------------------------- printing

  /** canonicalJson. */
  function Canonical(v: Json, le: KeyOrder): Text
    decreases v
  {
    match v
    case Null => [110, 117, 108, 108]
    case Bool(b) => if b then [116, 114, 117, 101] else [102, 97, 108, 115, 101]
    case Num(digits) => digits
    case Str(text) => Quoted(text)
    case Arr(items) =>
      [LEFT_BRACKET]
      + Join(seq(|items|, i requires 0 <= i < |items| => Canonical(items[i], le)), COMMA)
      + [RIGHT_BRACKET]
    case Obj(members) =>
      var sorted := SortMembers(members, le);
      assert forall i :: 0 <= i < |sorted| ==> sorted[i] in members;
      [LEFT_BRACE]
      + Join(seq(|sorted|, i requires 0 <= i < |sorted| =>
                   Quoted(sorted[i].key) + [COLON] + Canonical(sorted[i].value, le)), COMMA)
      + [RIGHT_BRACE]
  }

  /** The value with the members of every object in sorted order. */
  function Normalize(v: Json, le: KeyOrder): Json
    decreases v
  {
    match v
    case Arr(items) => Arr(seq(|items|, i requires 0 <= i < |items| => Normalize(items[i], le)))
    case Obj(members) =>
      var sorted := SortMembers(members, le);
      assert forall i :: 0 <= i < |sorted| ==> sorted[i] in members;
      Obj(seq(|sorted|, i requires 0 <= i < |sorted| => Member(sorted[i].key, Normalize(sorted[i].value, le))))
    case _ => v
  }

  /** JSON.stringify: the same printing, with members in the order they stand. */
  function Print(v: Json): Text
    decreases v
  {
    match v
    case Null => [110, 117, 108, 108]
    case Bool(b) => if b then [116, 114, 117, 101] else [102, 97, 108, 115, 101]
    case Num(digits) => digits
    case Str(text) => Quoted(text)
    case Arr(items) =>
      [LEFT_BRACKET] + Join(seq(|items|, i requires 0 <= i < |items| => Print(items[i])), COMMA) + [RIGHT_BRACKET]
    case Obj(members) =>
      [LEFT_BRACE]
      + Join(seq(|members|, i requires 0 <= i < |members| =>
                   Quoted(members[i].key) + [COLON] + Print(members[i].value)), COMMA)
      + [RIGHT_BRACE]
  }

  function ItemTexts(items: seq<Json>): (r: seq<Text>) {
    seq(|items|, i requires 0 <= i < |items| => Print(items[i]))
  }

  function MemberText(m: Member): Text {
    Quoted(m.key) + [COLON] + Print(m.value)
  }

  function MemberTexts(members: seq<Member>): seq<Text> {
    seq(|members|, i requires 0 <= i < |members| => MemberText(members[i]))
  }

  lemma PrintArr(items: seq<Json>)
    ensures Print(Arr(items)) == [LEFT_BRACKET] + Join(ItemTexts(items), COMMA) + [RIGHT_BRACKET]
  {
    assert ItemTexts(items) == seq(|items|, i requires 0 <= i < |items| => Print(items[i]));
  }

  lemma PrintObj(members: seq<Member>)
    ensures Print(Obj(members)) == [LEFT_BRACE] + Join(MemberTexts(members), COMMA) + [RIGHT_BRACE]
  {
    assert MemberTexts(members) == seq(|members|, i requires 0 <= i < |members| =>
                                         Quoted(members[i].key) + [COLON] + Print(members[i].value));
  }

  lemma {:induction false} CanonicalPrintsNormalForm(v: Json, le: KeyOrder)
    ensures Canonical(v, le) == Print(Normalize(v, le))
    decreases v
  {
    match v
    case Arr(items) =>
      forall i | 0 <= i < |items| ensures Canonical(items[i], le) == Print(Normalize(items[i], le)) {
        CanonicalPrintsNormalForm(items[i], le);
      }
      var n := Normalize(v, le).items;
      assert seq(|items|, i requires 0 <= i < |items| => Canonical(items[i], le))
          == seq(|n|, i requires 0 <= i < |n| => Print(n[i]));
    case Obj(members) =>
      var sorted := SortMembers(members, le);
      forall i | 0 <= i < |sorted| ensures Canonical(sorted[i].value, le) == Print(Normalize(sorted[i].value, le)) {
        assert sorted[i] in members;
        CanonicalPrintsNormalForm(sorted[i].value, le);
      }
      var n := Normalize(v, le).members;
      assert seq(|sorted|, i requires 0 <= i < |sorted| =>
                   Quoted(sorted[i].key) + [COLON] + Canonical(sorted[i].value, le))
          == seq(|n|, i requires 0 <= i < |n| => Quoted(n[i].key) + [COLON] + Print(n[i].value));
    case _ =>
  }

  // ------------------------------------------------------------- unique decodability

  /** What may follow a printed value inside a larger printed value. */
  predicate Terminated(t: Text) {
    t == [] || t[0] == COMMA || t[0] == RIGHT_BRACKET || t[0] == RIGHT_BRACE
  }

  /** The first unit of a printed value tells which kind of value it is. */
  function Lead(v: Json): CodeUnit
    requires WellFormed(v)
  {
    match v
    case Null => 110
    case Bool(b) => if b then 116 else 102
    case Num(digits) => digits[0]
    case Str(_) => QUOTE
    case Arr(_) => LEFT_BRACKET
    case Obj(_) => LEFT_BRACE
  }

  lemma PrintLead(v: Json, t: Text)
    requires WellFormed(v)
    ensures Print(v) != [] && Print(v)[0] == Lead(v) && (Print(v) + t)[0] == Lead(v)
  {
    match v
    case Arr(items) => PrintArr(items);
    case Obj(members) => PrintObj(members);
    case _ =>
  }

  /** How far the number at the start of a text extends. */
  function NumberExtent(t: Text): nat {
    if t == [] || !IsNumberUnit(t[0]) then 0 else 1 + NumberExtent(t[1..])
  }

  lemma {:induction false} NumberExtentIsLength(a: Text, t: Text)
    requires Terminated(t) && forall i :: 0 <= i < |a| ==> IsNumberUnit(a[i])
    ensures NumberExtent(a + t) == |a|
  {
    if a == [] {
      assert a + t == t;
    } else {
      NumberExtentIsLength(a[1..], t);
      assert (a + t)[1..] == a[1..] + t;
    }
  }

  lemma NumberUniquelyDecodable(a: Text, b: Text, t: Text, u: Text)
    requires NumberText(a) && NumberText(b) && Terminated(t) && Terminated(u)
    requires a + t == b + u
    ensures a == b && t == u
  {
    NumberExtentIsLength(a, t);
    NumberExtentIsLength(b, u);
    assert a == (a + t)[..|a|] && b == (b + u)[..|b|];
    assert t == (a + t)[|a|..] && u == (b + u)[|b|..];
  }

  /** The text of a non-empty list splits into its first part and the rest with its closing unit. */
  lemma JoinHead(parts: seq<Text>, close: CodeUnit, t: Text)
    requires parts != []
    ensures Join(parts, COMMA) + [close] + t
         == parts[0] + (if |parts| == 1 then [close] + t else [COMMA] + (Join(parts[1..], COMMA) + [close] + t))
  {
    if |parts| == 1 {
      Regroup(parts[0], [close], t);
    } else {
      var rest := Join(parts[1..], COMMA);
      assert Join(parts, COMMA) == parts[0] + [COMMA] + rest;
      Regroup(Join(parts, COMMA), [close], t);
      Regroup(parts[0] + [COMMA], rest, [close] + t);
      Regroup(parts[0], [COMMA], rest + ([close] + t));
      Regroup(rest, [close], t);
    }
  }

  lemma Associate(a: Text, b: Text, c: Text, d: Text)
    ensures a + b + c + d == a + (b + (c + d))
  {
  }

  function ItemsText(items: seq<Json>, t: Text): Text {
    Join(ItemTexts(items), COMMA) + [RIGHT_BRACKET] + t
  }

  function MembersText(members: seq<Member>, t: Text): Text {
    Join(MemberTexts(members), COMMA) + [RIGHT_BRACE] + t
  }

  lemma AfterOpening(v: Json, t: Text)
    ensures v.Arr? ==> Print(v) + t == [LEFT_BRACKET] + ItemsText(v.items, t)
    ensures v.Obj? ==> Print(v) + t == [LEFT_BRACE] + MembersText(v.members, t)
  {
    if v.Arr? { PrintArr(v.items); }
    if v.Obj? { PrintObj(v.members); }
  }

  lemma ItemsHead(xs: seq<Json>, t: Text)
    requires xs != [] && WellFormed(xs[0])
    ensures ItemsText(xs, t) == Print(xs[0]) + ItemsTail(xs, t)
    ensures ItemsText(xs, t)[0] == Lead(xs[0])
  {
    JoinHead(ItemTexts(xs), RIGHT_BRACKET, t);
    assert ItemTexts(xs)[1..] == ItemTexts(xs[1..]);
    PrintLead(xs[0], ItemsTail(xs, t));
  }

  function ItemsTail(xs: seq<Json>, t: Text): (r: Text)
    requires xs != []
    ensures Terminated(r)
  {
    if |xs| == 1 then [RIGHT_BRACKET] + t else [COMMA] + ItemsText(xs[1..], t)
  }

  lemma MembersHead(ms: seq<Member>, t: Text)
    requires ms != []
    ensures MembersText(ms, t) == Quoted(ms[0].key) + ([COLON] + (Print(ms[0].value) + MembersTail(ms, t)))
    ensures MembersText(ms, t)[0] == QUOTE
  {
    JoinHead(MemberTexts(ms), RIGHT_BRACE, t);
    assert MemberTexts(ms)[1..] == MemberTexts(ms[1..]);
    assert MembersText(ms, t) == MemberText(ms[0]) + MembersTail(ms, t);
    var k, p, u := Quoted(ms[0].key), Print(ms[0].value), MembersTail(ms, t);
    Associate(k, [COLON], p, u);
    assert (k + ([COLON] + (p + u)))[0] == QUOTE;
  }

  function MembersTail(ms: seq<Member>, t: Text): (r: Text)
    requires ms != []
    ensures Terminated(r)
  {
    if |ms| == 1 then [RIGHT_BRACE] + t else [COMMA] + MembersText(ms[1..], t)
  }

  lemma SuffixEqual(p: Text, t: Text, u: Text)
    requires p + t == p + u
    ensures t == u
  {
    assert t == (p + t)[|p|..] && u == (p + u)[|p|..];
  }

  /** A printed value determines the value and where its text ends. */
  lemma {:induction false} UniquelyDecodable(v: Json, w: Json, t: Text, u: Text)
    requires WellFormed(v) && WellFormed(w) && Terminated(t) && Terminated(u)
    requires Print(v) + t == Print(w) + u
    ensures v == w && t == u
    decreases v, 1, 0
  {
    PrintLead(v, t);
    PrintLead(w, u);
    assert Lead(v) == Lead(w);
    AfterOpening(v, t);
    AfterOpening(w, u);
    match v
    case Null => SuffixEqual(Print(v), t, u);
    case Bool(b) => SuffixEqual(Print(v), t, u);
    case Num(digits) => NumberUniquelyDecodable(digits, w.digits, t, u);
    case Str(text) => QuotedUniquelyDecodable(text, w.text, t, u);
    case Arr(items) =>
      SuffixEqual([LEFT_BRACKET], ItemsText(items, t), ItemsText(w.items, u));
      ItemsUniquelyDecodable(v, items, w.items, t, u);
    case Obj(members) =>
      SuffixEqual([LEFT_BRACE], MembersText(members, t), MembersText(w.members, u));
      MembersUniquelyDecodable(v, members, w.members, t, u);
  }

  lemma ItemsEnd(xs: seq<Json>, ys: seq<Json>, t: Text, u: Text)
    requires xs == [] || ys == []
    requires (xs != [] ==> WellFormed(xs[0])) && (ys != [] ==> WellFormed(ys[0]))
    requires ItemsText(xs, t) == ItemsText(ys, u)
    ensures xs == [] && ys == [] && t == u
  {
    if xs != [] { ItemsHead(xs, t); }
    if ys != [] { ItemsHead(ys, u); }
    assert xs == [] && ys == [];
    assert ItemsText(xs, t) == [RIGHT_BRACKET] + t && ItemsText(ys, u) == [RIGHT_BRACKET] + u;
    SuffixEqual([RIGHT_BRACKET], t, u);
  }

  lemma ItemsTailsEqual(xs: seq<Json>, ys: seq<Json>, t: Text, u: Text)
    requires xs != [] && ys != [] && ItemsTail(xs, t) == ItemsTail(ys, u)
    ensures |xs| == 1 <==> |ys| == 1
    ensures |xs| == 1 ==> t == u
    ensures |xs| > 1 ==> ItemsText(xs[1..], t) == ItemsText(ys[1..], u)
  {
    assert |xs| == 1 <==> ItemsTail(xs, t)[0] == RIGHT_BRACKET;
    assert |ys| == 1 <==> ItemsTail(ys, u)[0] == RIGHT_BRACKET;
    if |xs| == 1 {
      SuffixEqual([RIGHT_BRACKET], t, u);
    } else {
      SuffixEqual([COMMA], ItemsText(xs[1..], t), ItemsText(ys[1..], u));
    }
  }

  lemma ItemsStep(xs: seq<Json>, ys: seq<Json>, t: Text, u: Text)
    requires xs != [] && ys != [] && ItemsText(xs, t) == ItemsText(ys, u)
    requires WellFormed(xs[0]) && WellFormed(ys[0])
    ensures Print(xs[0]) + ItemsTail(xs, t) == Print(ys[0]) + ItemsTail(ys, u)
  {
    ItemsHead(xs, t);
    ItemsHead(ys, u);
  }

  lemma {:induction false} ItemsUniquelyDecodable(v: Json, xs: seq<Json>, ys: seq<Json>, t: Text, u: Text)
    requires forall x :: x in xs ==> WellFormed(x) && x < v
    requires forall y :: y in ys ==> WellFormed(y)
    requires ItemsText(xs, t) == ItemsText(ys, u)
    ensures xs == ys && t == u
    decreases v, 0, |xs|
  {
    if xs == [] || ys == [] {
      ItemsEnd(xs, ys, t, u);
    } else {
      assert xs[0] in xs && ys[0] in ys;
      ItemsStep(xs, ys, t, u);
      UniquelyDecodable(xs[0], ys[0], ItemsTail(xs, t), ItemsTail(ys, u));
      ItemsTailsEqual(xs, ys, t, u);
      if |xs| > 1 { ItemsUniquelyDecodable(v, xs[1..], ys[1..], t, u); }
      HeadAndTail(xs, ys);
    }
  }

  lemma MembersEnd(ms: seq<Member>, ns: seq<Member>, t: Text, u: Text)
    requires ms == [] || ns == []
    requires MembersText(ms, t) == MembersText(ns, u)
    ensures ms == [] && ns == [] && t == u
  {
    if ms != [] { MembersHead(ms, t); }
    if ns != [] { MembersHead(ns, u); }
    assert ms == [] && ns == [];
    assert MembersText(ms, t) == [RIGHT_BRACE] + t && MembersText(ns, u) == [RIGHT_BRACE] + u;
    SuffixEqual([RIGHT_BRACE], t, u);
  }

  lemma MembersTailsEqual(ms: seq<Member>, ns: seq<Member>, t: Text, u: Text)
    requires ms != [] && ns != [] && MembersTail(ms, t) == MembersTail(ns, u)
    ensures |ms| == 1 <==> |ns| == 1
    ensures |ms| == 1 ==> t == u
    ensures |ms| > 1 ==> MembersText(ms[1..], t) == MembersText(ns[1..], u)
  {
    assert |ms| == 1 <==> MembersTail(ms, t)[0] == RIGHT_BRACE;
    assert |ns| == 1 <==> MembersTail(ns, u)[0] == RIGHT_BRACE;
    if |ms| == 1 {
      SuffixEqual([RIGHT_BRACE], t, u);
    } else {
      SuffixEqual([COMMA], MembersText(ms[1..], t), MembersText(ns[1..], u));
    }
  }

  lemma MembersStep(ms: seq<Member>, ns: seq<Member>, t: Text, u: Text)
    requires ms != [] && ns != [] && MembersText(ms, t) == MembersText(ns, u)
    ensures ms[0].key == ns[0].key
    ensures Print(ms[0].value) + MembersTail(ms, t) == Print(ns[0].value) + MembersTail(ns, u)
  {
    MembersHead(ms, t);
    MembersHead(ns, u);
    var x, y := Print(ms[0].value) + MembersTail(ms, t), Print(ns[0].value) + MembersTail(ns, u);
    QuotedUniquelyDecodable(ms[0].key, ns[0].key, [COLON] + x, [COLON] + y);
    SuffixEqual([COLON], x, y);
  }

  lemma {:induction false} MembersUniquelyDecodable(v: Json, ms: seq<Member>, ns: seq<Member>, t: Text, u: Text)
    requires forall m :: m in ms ==> WellFormed(m.value) && m.value < v
    requires forall n :: n in ns ==> WellFormed(n.value)
    requires MembersText(ms, t) == MembersText(ns, u)
    ensures ms == ns && t == u
    decreases v, 0, |ms|
  {
    if ms == [] || ns == [] {
      MembersEnd(ms, ns, t, u);
    } else {
      MembersStep(ms, ns, t, u);
      MemberInside(ms, 0);
      MemberInside(ns, 0);
      UniquelyDecodable(ms[0].value, ns[0].value, MembersTail(ms, t), MembersTail(ns, u));
      MembersTailsEqual(ms, ns, t, u);
      if |ms| > 1 { MembersUniquelyDecodable(v, ms[1..], ns[1..], t, u); }
      HeadAndTail(ms, ns);
    }
  }

  lemma MemberInside(ms: seq<Member>, i: nat)
    requires i < |ms|
    ensures ms[i] in ms
  {
  }
}
