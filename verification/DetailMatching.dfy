/** authorizationDetailsMatchRequest (server/usecases/external-resources.ts): the details a
    controller approved must answer the requested details one to one. */
module DetailMatching {
  import opened JsText
  import opened Options
  import opened Sequences
  import opened CanonicalJson
  import opened CanonicalEquality
  import opened AuthorizationDetails
  import opened GreedyMatching

  const TYPE: Text := [116, 121, 112, 101]

  /** A detail accepted by the schema: an object with a non-empty string under "type". */
  ghost predicate IsDetail(d: Json) {
    d.Obj? && WellFormed(d) &&
    var t := Lookup(d.members, TYPE);
    t.Some? && t.value.Str? && t.value.text != []
  }

  ghost predicate AreDetails(ds: seq<Json>) {
    forall d :: d in ds ==> IsDetail(d)
  }

  function MembersOf(v: Json): seq<Member> {
    if v.Obj? then v.members else []
  }

  /** authorizationDetailMatchesTemplate. */
  predicate MatchesTemplate(detail: Json, template: Json, le: KeyOrder) {
    forall m :: m in MembersOf(template) ==> Agrees(detail, m, le)
  }

  predicate Agrees(detail: Json, m: Member, le: KeyOrder) {
    var x := Lookup(MembersOf(detail), m.key);
    x.Some? && Canonical(x.value, le) == Canonical(m.value, le)
  }

  /** The test the matcher applies to one candidate and one requirement. */
  predicate Satisfies(candidate: Json, requirement: Json, le: KeyOrder) {
    Canonical(candidate, le) == Canonical(requirement, le) || MatchesTemplate(candidate, requirement, le)
  }

  function Sat(le: KeyOrder): (Json, Json) -> bool {
    (candidate, requirement) => Satisfies(candidate, requirement, le)
  }

  /** The whole decision, with the loop written as Greedy. */
  predicate MatchesRequest(approved: seq<Json>, requested: seq<Json>, le: KeyOrder) {
    && |approved| == |requested|
    && |set t | t in CanonicalTexts(approved, le)| == |approved|
    && Greedy(approved, requested, Sat(le))
  }

  method AuthorizationDetailsMatchRequest(approved: seq<Json>, requested: seq<Json>, le: KeyOrder)
    returns (matched: bool)
    ensures matched <==> MatchesRequest(approved, requested, le)
  {
    if |approved| != |requested| || |set t | t in CanonicalTexts(approved, le)| != |approved| {
      return false;
    }
    var remaining := approved;
    var k := 0;
    while k < |requested|
      invariant 0 <= k <= |requested|
      invariant Greedy(approved, requested, Sat(le)) == Greedy(remaining, requested[k..], Sat(le))
    {
      assert requested[k..][0] == requested[k] && requested[k..][1..] == requested[k + 1..];
      var index := FindIndex(remaining, requested[k], Sat(le));
      if index == -1 { return false; }
      remaining := RemoveAt(remaining, index);
      k := k + 1;
    }
    return true;
  }

  // ------------------------------------------------------------ what the tests mean

  lemma {:induction false} SetSizeDistinct(texts: seq<Text>)
    ensures |set t | t in texts| <= |texts|
    ensures |set t | t in texts| == |texts| <==> Distinct(texts)
  {
    if texts != [] {
      var tail := texts[1..];
      SetSizeDistinct(tail);
      assert (set t | t in texts) == (set t | t in tail) + {texts[0]};
      if Distinct(texts) {
        assert Distinct(tail);
        assert texts[0] !in tail;
      } else if Distinct(tail) {
        var i, j :| 0 <= i < j < |texts| && texts[i] == texts[j];
        assert i > 0 ==> texts[i] == tail[i - 1];
        assert texts[j] == tail[j - 1];
        assert texts[0] in tail;
      }
    }
  }

  lemma CanonicalEqualAgrees(d: Json, e: Json, le: KeyOrder)
    requires d.Obj? && e.Obj? && WellFormed(d) && WellFormed(e)
    requires Canonical(d, le) == Canonical(e, le)
    ensures MatchesTemplate(d, e, le)
  {
    CanonicalEqualIffNormalFormEqual(d, e, le);
    forall m | m in e.members ensures Agrees(d, m, le) {
      var n := NormalFormMember(e.members, d.members, m, le);
      LookupMember(d.members, n);
      CanonicalEqualIffNormalFormEqual(n.value, m.value, le);
    }
  }

  /** For details, the canonical comparison in the test is a special case of the template one. */
  lemma SatisfiesIsTemplate(d: Json, e: Json, le: KeyOrder)
    requires IsDetail(d) && IsDetail(e)
    ensures Satisfies(d, e, le) <==> MatchesTemplate(d, e, le)
  {
    if Canonical(d, le) == Canonical(e, le) { CanonicalEqualAgrees(d, e, le); }
  }

  lemma TemplateTransitive(d: Json, e: Json, f: Json, le: KeyOrder)
    requires MatchesTemplate(d, e, le) && MatchesTemplate(e, f, le)
    ensures MatchesTemplate(d, f, le)
  {
    forall m | m in MembersOf(f) ensures Agrees(d, m, le) {
      assert Agrees(e, m, le);
      var n := Member(m.key, Lookup(MembersOf(e), m.key).value);
      assert Agrees(d, n, le);
    }
  }

  lemma TemplateReflexive(d: Json, le: KeyOrder)
    requires d.Obj? && WellFormed(d)
    ensures MatchesTemplate(d, d, le)
  {
    forall m | m in d.members ensures Agrees(d, m, le) { LookupMember(d.members, m); }
  }

  // ------------------------------------------------------------- the exact condition

  /** The two details put different values under some key, so no detail satisfies both. */
  ghost predicate Conflict(d: Json, e: Json, le: KeyOrder) {
    exists m, n :: m in MembersOf(d) && n in MembersOf(e) && m.key == n.key
                   && Canonical(m.value, le) != Canonical(n.value, le)
  }

  /** Of two requirements that can be satisfied together, the earlier one is at least as specific. */
  ghost predicate SpecificFirst(requested: seq<Json>, le: KeyOrder) {
    forall i, j :: 0 <= i < j < |requested| ==>
      Conflict(requested[i], requested[j], le) || MatchesTemplate(requested[i], requested[j], le)
  }

  /** What the matcher is for: distinct approved details, paired one to one with the requested. */
  ghost predicate Answers(approved: seq<Json>, requested: seq<Json>, le: KeyOrder) {
    && |approved| == |requested|
    && Distinct(CanonicalTexts(approved, le))
    && exists p :: Pairs(p, approved, requested, Sat(le))
  }

  lemma MatchImpliesAnswers(approved: seq<Json>, requested: seq<Json>, le: KeyOrder)
    requires MatchesRequest(approved, requested, le)
    ensures Answers(approved, requested, le)
  {
    SetSizeDistinct(CanonicalTexts(approved, le));
    var p := GreedyIsSound(approved, requested, Sat(le));
  }

  lemma SpecificFirstExchangeable(approved: seq<Json>, requested: seq<Json>, le: KeyOrder)
    requires AreDetails(approved) && AreDetails(requested) && SpecificFirst(requested, le)
    ensures Exchangeable(approved, requested, Sat(le))
  {
    forall i, j, a, b |
      0 <= i < j < |requested| && 0 <= a < |approved| && 0 <= b < |approved|
      && Sat(le)(approved[a], requested[i]) && Sat(le)(approved[a], requested[j])
      && Sat(le)(approved[b], requested[i])
      ensures Sat(le)(approved[b], requested[j])
    {
      SatisfiesIsTemplate(approved[a], requested[i], le);
      SatisfiesIsTemplate(approved[a], requested[j], le);
      SatisfiesIsTemplate(approved[b], requested[i], le);
      NoConflictInside(approved[a], requested[i], requested[j], le);
      TemplateTransitive(approved[b], requested[i], requested[j], le);
    }
  }

  lemma NoConflictInside(d: Json, e: Json, f: Json, le: KeyOrder)
    requires MatchesTemplate(d, e, le) && MatchesTemplate(d, f, le)
    ensures !Conflict(e, f, le)
  {
    forall m, n | m in MembersOf(e) && n in MembersOf(f) && m.key == n.key
      ensures Canonical(m.value, le) == Canonical(n.value, le)
    {
      assert Agrees(d, m, le) && Agrees(d, n, le);
    }
  }

  lemma SpecificFirstIsSufficient(approved: seq<Json>, requested: seq<Json>, le: KeyOrder)
    requires AreDetails(approved) && AreDetails(requested) && SpecificFirst(requested, le)
    ensures MatchesRequest(approved, requested, le) <==> Answers(approved, requested, le)
  {
    if MatchesRequest(approved, requested, le) {
      MatchImpliesAnswers(approved, requested, le);
    } else if Answers(approved, requested, le) {
      SetSizeDistinct(CanonicalTexts(approved, le));
      SpecificFirstExchangeable(approved, requested, le);
      var p :| Pairs(p, approved, requested, Sat(le));
      GreedyIsComplete(p, approved, requested, Sat(le));
    }
  }

  // ------------------------------------------------- necessity: building a failing approval

  function LongKey(n: nat): (key: Text)
    ensures |key| == n
  {
    if n == 0 then [] else [120] + LongKey(n - 1)
  }

  ghost predicate KeysBelow(d: Json, bound: nat) {
    forall m :: m in MembersOf(d) ==> |m.key| < bound
  }

  /** A length no key of the details reaches. */
  function KeyBound(ds: seq<Json>): (n: nat)
    ensures forall d :: d in ds ==> KeysBelow(d, n)
  {
    if ds == [] then 0
    else
      var a, b := MemberBound(MembersOf(ds[0])), KeyBound(ds[1..]);
      assert forall d :: d in ds ==> d == ds[0] || d in ds[1..];
      if a < b then b else a
  }

  function MemberBound(ms: seq<Member>): (n: nat)
    ensures forall m :: m in ms ==> |m.key| < n
  {
    if ms == [] then 0
    else
      var n := MemberBound(ms[1..]);
      assert forall m :: m in ms ==> m == ms[0] || m in ms[1..];
      if n <= |ms[0].key| then |ms[0].key| + 1 else n
  }

  function Extended(d: Json, key: Text): Json {
    Obj(MembersOf(d) + [Member(key, Null)])
  }

  lemma {:induction false} LookupAppend(ms: seq<Member>, ns: seq<Member>, key: Text)
    ensures Lookup(ms + ns, key) == if Lookup(ms, key).Some? then Lookup(ms, key) else Lookup(ns, key)
  {
    if ms == [] {
      assert ms + ns == ns;
    } else {
      assert (ms + ns)[1..] == ms[1..] + ns;
      LookupAppend(ms[1..], ns, key);
    }
  }

  lemma {:induction false} AppendDistinct(ms: seq<Member>, ns: seq<Member>)
    requires DistinctKeys(ms) && DistinctKeys(ns)
    requires forall m :: m in ms ==> Lookup(ns, m.key).None?
    ensures DistinctKeys(ms + ns)
  {
    if ms == [] {
      assert ms + ns == ns;
    } else {
      assert (ms + ns)[1..] == ms[1..] + ns;
      AppendDistinct(ms[1..], ns);
      LookupAppend(ms[1..], ns, ms[0].key);
    }
  }

  lemma ExtendedIsDetail(d: Json, key: Text)
    requires IsDetail(d) && forall m :: m in d.members ==> m.key != key
    ensures IsDetail(Extended(d, key))
  {
    var ms := d.members + [Member(key, Null)];
    AppendDistinct(d.members, [Member(key, Null)]);
    forall m | m in ms ensures WellFormed(m.value) { assert m in d.members || m == Member(key, Null); }
    LookupAppend(d.members, [Member(key, Null)], TYPE);
  }

  /** The extra member changes nothing for a template that does not mention its key. */
  lemma ExtendedAgrees(d: Json, key: Text, template: Json, le: KeyOrder)
    requires forall m :: m in MembersOf(template) ==> m.key != key
    ensures MatchesTemplate(Extended(d, key), template, le) <==> MatchesTemplate(d, template, le)
  {
    forall m | m in MembersOf(template) ensures Agrees(Extended(d, key), m, le) <==> Agrees(d, m, le) {
      LookupAppend(MembersOf(d), [Member(key, Null)], m.key);
    }
  }

  /** A detail carrying the members of both. */
  function Combined(d: Json, e: Json): Json {
    Obj(MembersOf(d) + Additional(MembersOf(d), MembersOf(e)))
  }

  function Additional(ms: seq<Member>, ns: seq<Member>): (r: seq<Member>)
    ensures forall m :: m in r ==> m in ns && Lookup(ms, m.key).None?
  {
    if ns == [] then []
    else (if Lookup(ms, ns[0].key).None? then [ns[0]] else []) + Additional(ms, ns[1..])
  }

  lemma {:induction false} AdditionalLookup(ms: seq<Member>, ns: seq<Member>, key: Text)
    ensures Lookup(Additional(ms, ns), key) == if Lookup(ms, key).None? then Lookup(ns, key) else None
  {
    if ns != [] {
      AdditionalLookup(ms, ns[1..], key);
      var head: seq<Member> := if Lookup(ms, ns[0].key).None? then [ns[0]] else [];
      LookupAppend(head, Additional(ms, ns[1..]), key);
    }
  }

  lemma PrependDistinct(m: Member, ms: seq<Member>)
    requires DistinctKeys(ms) && Lookup(ms, m.key).None?
    ensures DistinctKeys([m] + ms)
  {
    assert ([m] + ms)[1..] == ms;
  }

  lemma {:induction false} AdditionalDistinct(ms: seq<Member>, ns: seq<Member>)
    requires DistinctKeys(ns)
    ensures DistinctKeys(Additional(ms, ns))
  {
    if ns != [] {
      var rest := Additional(ms, ns[1..]);
      AdditionalDistinct(ms, ns[1..]);
      if Lookup(ms, ns[0].key).None? {
        AdditionalLookup(ms, ns[1..], ns[0].key);
        PrependDistinct(ns[0], rest);
      } else {
        assert [] + rest == rest;
      }
    }
  }

  lemma CombinedIsDetail(d: Json, e: Json)
    requires IsDetail(d) && IsDetail(e)
    ensures IsDetail(Combined(d, e))
    ensures forall m :: m in Combined(d, e).members ==> m in d.members || m in e.members
  {
    var extra := Additional(d.members, e.members);
    var ms := d.members + extra;
    AdditionalDistinct(d.members, e.members);
    AppendDistinct(d.members, extra);
    LookupAppend(d.members, extra, TYPE);
  }

  lemma CombinedMatchesBoth(d: Json, e: Json, le: KeyOrder)
    requires IsDetail(d) && IsDetail(e) && !Conflict(d, e, le)
    ensures MatchesTemplate(Combined(d, e), d, le) && MatchesTemplate(Combined(d, e), e, le)
  {
    var extra := Additional(d.members, e.members);
    forall m | m in d.members ensures Agrees(Combined(d, e), m, le) {
      LookupMember(d.members, m);
      LookupAppend(d.members, extra, m.key);
    }
    forall m | m in e.members ensures Agrees(Combined(d, e), m, le) {
      LookupMember(e.members, m);
      LookupAppend(d.members, extra, m.key);
      AdditionalLookup(d.members, e.members, m.key);
      if Lookup(d.members, m.key).Some? {
        assert Member(m.key, Lookup(d.members, m.key).value) in d.members;
      }
    }
  }

  /** A detail with a private extra member, the k-th of its kind. */
  function Private(bound: nat): (Json, nat) -> Json {
    (d: Json, k: nat) => Extended(d, LongKey(bound + k))
  }

  ghost function Bounded(bound: nat): Json -> bool {
    d => IsDetail(d) && KeysBelow(d, bound)
  }

  /** Each detail with a private extra member, so that all of them print differently. */
  function Privates(ds: seq<Json>, bound: nat): seq<Json> {
    seq(|ds|, k requires 0 <= k < |ds| => Private(bound)(ds[k], k))
  }

  /** Details that end in private members of different lengths print differently. */
  lemma PrivateMembersDiffer(d: Json, e: Json, key: Text, key': Text, bound: nat, le: KeyOrder)
    requires d.Obj? && e.Obj? && WellFormed(Extended(d, key)) && WellFormed(Extended(e, key'))
    requires forall m :: m in d.members || m in e.members ==> |m.key| < bound
    requires bound <= |key| && bound <= |key'| && |key| != |key'|
    ensures Canonical(Extended(d, key), le) != Canonical(Extended(e, key'), le)
  {
    var m := Member(key', Null);
    assert m in Extended(e, key').members;
    LookupAppend(d.members, [Member(key, Null)], key');
    assert !Agrees(Extended(d, key), m, le);
    if Canonical(Extended(d, key), le) == Canonical(Extended(e, key'), le) {
      CanonicalEqualAgrees(Extended(d, key), Extended(e, key'), le);
    }
  }

  lemma PrivateIsDetail(d: Json, bound: nat, k: nat)
    requires IsDetail(d) && KeysBelow(d, bound)
    ensures IsDetail(Extended(d, LongKey(bound + k)))
  {
    var key := LongKey(bound + k);
    assert |key| >= bound;
    ExtendedIsDetail(d, key);
  }

  lemma PrivatesDiffer(d: Json, e: Json, bound: nat, k: nat, l: nat, le: KeyOrder)
    requires IsDetail(d) && IsDetail(e) && KeysBelow(d, bound) && KeysBelow(e, bound) && k != l
    ensures Canonical(Extended(d, LongKey(bound + k)), le) != Canonical(Extended(e, LongKey(bound + l)), le)
  {
    PrivateIsDetail(d, bound, k);
    PrivateIsDetail(e, bound, l);
    PrivateMembersDiffer(d, e, LongKey(bound + k), LongKey(bound + l), bound, le);
  }

  lemma PrivatesAreDetails(ds: seq<Json>, bound: nat)
    requires forall k :: 0 <= k < |ds| ==> Bounded(bound)(ds[k])
    ensures AreDetails(Privates(ds, bound))
  {
    forall d, k: nat | Bounded(bound)(d) ensures IsDetail(Private(bound)(d, k)) {
      PrivateIsDetail(d, bound, k);
    }
    AllExtended(ds, Bounded(bound), Private(bound), IsDetail);
  }

  lemma PrivatesAreDistinct(ds: seq<Json>, bound: nat, le: KeyOrder)
    requires forall k :: 0 <= k < |ds| ==> Bounded(bound)(ds[k])
    ensures Distinct(CanonicalTexts(Privates(ds, bound), le))
  {
    var texts := CanonicalTexts(Privates(ds, bound), le);
    forall k, l | 0 <= k < l < |ds| ensures texts[k] != texts[l] {
      PrivatesDiffer(ds[k], ds[l], bound, k, l, le);
      TextAt(ds, bound, k, le);
      TextAt(ds, bound, l, le);
    }
  }

  lemma TextAt(ds: seq<Json>, bound: nat, k: nat, le: KeyOrder)
    requires k < |ds|
    ensures CanonicalTexts(Privates(ds, bound), le)[k] == Canonical(Extended(ds[k], LongKey(bound + k)), le)
  {
    assert Privates(ds, bound)[k] == Private(bound)(ds[k], k) == Extended(ds[k], LongKey(bound + k));
  }

  /** The private members do not change which requirements a detail satisfies. */
  lemma PrivateSatisfies(d: Json, bound: nat, k: nat, r: Json, le: KeyOrder)
    requires IsDetail(d) && IsDetail(r) && KeysBelow(d, bound) && KeysBelow(r, bound)
    ensures Satisfies(Extended(d, LongKey(bound + k)), r, le) <==> MatchesTemplate(d, r, le)
  {
    var key := LongKey(bound + k);
    assert |key| >= bound;
    ExtendedIsDetail(d, key);
    ExtendedAgrees(d, key, r, le);
    SatisfiesIsTemplate(Extended(d, key), r, le);
  }

  /** An approval with a pairing that the matcher turns down: both serves requirements i and j. */
  function FailingApproval(requested: seq<Json>, both: Json, i: nat, j: nat, bound: nat): seq<Json>
    requires i < j < |requested|
  {
    Displaced(Privates(requested, bound), Private(bound)(both, |requested|), i, j)
  }

  lemma PrivatesSnoc(ds: seq<Json>, d: Json, bound: nat)
    ensures Privates(ds + [d], bound) == Privates(ds, bound) + [Private(bound)(d, |ds|)]
  {
  }

  lemma FailingApprovalIsDistinct(requested: seq<Json>, both: Json, i: nat, j: nat, bound: nat, le: KeyOrder)
    requires forall k :: 0 <= k < |requested| ==> Bounded(bound)(requested[k])
    requires Bounded(bound)(both) && i < j < |requested|
    ensures var a := FailingApproval(requested, both, i, j, bound);
            |a| == |requested| && AreDetails(a) && Distinct(CanonicalTexts(a, le))
  {
    var ds, x := requested + [both], Private(bound)(both, |requested|);
    PrivatesAreDetails(ds, bound);
    PrivatesAreDistinct(ds, bound, le);
    PrivatesSnoc(requested, both, bound);
    DisplacedTextsDistinct(Privates(requested, bound), x, i, j, le);
  }

  lemma DisplacedTextsDistinct(owns: seq<Json>, x: Json, i: nat, j: nat, le: KeyOrder)
    requires i < j < |owns| && AreDetails(owns + [x]) && Distinct(CanonicalTexts(owns + [x], le))
    ensures var a := Displaced(owns, x, i, j);
            |a| == |owns| && AreDetails(a) && Distinct(CanonicalTexts(a, le))
  {
    var a, n := Displaced(owns, x, i, j), |owns|;
    DisplacedAt(owns, x, i, j, 0);
    forall m | 0 <= m < n ensures IsDetail(a[m]) { DisplacedAt(owns, x, i, j, m); }
    DisplacedTextsDiffer(owns, x, i, j, le);
  }

  lemma DisplacedTextsDiffer(owns: seq<Json>, x: Json, i: nat, j: nat, le: KeyOrder)
    requires i < j < |owns| && Distinct(CanonicalTexts(owns + [x], le))
    ensures |Displaced(owns, x, i, j)| == |owns| && Distinct(CanonicalTexts(Displaced(owns, x, i, j), le))
  {
    var a, n, all := Displaced(owns, x, i, j), |owns|, CanonicalTexts(owns + [x], le);
    DisplacedAt(owns, x, i, j, 0);
    forall m, l | 0 <= m < l < n ensures CanonicalTexts(a, le)[m] != CanonicalTexts(a, le)[l] {
      DisplacedAt(owns, x, i, j, m);
      DisplacedAt(owns, x, i, j, l);
      var s, t := Owner(n, i, j, m), Owner(n, i, j, l);
      assert all[if s < t then s else t] != all[if s < t then t else s];
    }
  }

  lemma SatOfPrivate(d: Json, k: nat, e: Json, bound: nat, le: KeyOrder)
    ensures Sat(le)(Private(bound)(d, k), e) <==> Satisfies(Extended(d, LongKey(bound + k)), e, le)
  {
    assert Private(bound)(d, k) == Extended(d, LongKey(bound + k));
  }

  lemma PrivateIsCover(d: Json, k: nat, e: Json, bound: nat, le: KeyOrder)
    requires Bounded(bound)(d) && Bounded(bound)(e)
    ensures Sat(le)(Private(bound)(d, k), e) <==> Covers(le)(d, e)
  {
    SatOfPrivate(d, k, e, bound, le);
    PrivateSatisfies(d, bound, k, e, le);
  }

  lemma PrivatesAreCovers(bound: nat, le: KeyOrder)
    ensures forall d, e, k: nat {:trigger Sat(le)(Private(bound)(d, k), e)} ::
              Bounded(bound)(d) && Bounded(bound)(e) ==>
                (Sat(le)(Private(bound)(d, k), e) <==> Covers(le)(d, e))
  {
    forall d, e, k: nat {:trigger Sat(le)(Private(bound)(d, k), e)}
      ensures Bounded(bound)(d) && Bounded(bound)(e) ==>
                (Sat(le)(Private(bound)(d, k), e) <==> Covers(le)(d, e))
    {
      if Bounded(bound)(d) && Bounded(bound)(e) { PrivateIsCover(d, k, e, bound, le); }
    }
  }

  lemma CoversIsPreorder(bound: nat, le: KeyOrder)
    ensures forall d {:trigger Covers(le)(d, d)} :: Bounded(bound)(d) ==> Covers(le)(d, d)
    ensures forall d, e, f {:trigger Covers(le)(d, e), Covers(le)(e, f)} ::
              Covers(le)(d, e) && Covers(le)(e, f) ==> Covers(le)(d, f)
  {
    forall d {:trigger Covers(le)(d, d)} | Bounded(bound)(d) ensures Covers(le)(d, d) { TemplateReflexive(d, le); }
    forall d, e, f {:trigger Covers(le)(d, e), Covers(le)(e, f)} | Covers(le)(d, e) && Covers(le)(e, f)
      ensures Covers(le)(d, f)
    {
      TemplateTransitive(d, e, f, le);
    }
  }

  lemma RequestIsContended(requested: seq<Json>, both: Json, i: nat, j: nat, bound: nat, le: KeyOrder)
    requires forall k :: 0 <= k < |requested| ==> Bounded(bound)(requested[k])
    requires Bounded(bound)(both) && i < j < |requested|
    requires MatchesTemplate(both, requested[i], le) && MatchesTemplate(both, requested[j], le)
    requires !MatchesTemplate(requested[i], requested[j], le)
    ensures Contended(Privates(requested, bound), Private(bound)(both, |requested|), requested, i, j, Sat(le))
  {
    PrivatesAreCovers(bound, le);
    CoversIsPreorder(bound, le);
    ContendedByExtension(
      requested, both, Privates(requested, bound), i, j, Bounded(bound), Private(bound), Covers(le), Sat(le));
  }

  function Covers(le: KeyOrder): (Json, Json) -> bool {
    (d, e) => MatchesTemplate(d, e, le)
  }

  lemma BadlyOrderedRequestFails(requested: seq<Json>, i: nat, j: nat, le: KeyOrder) returns (approved: seq<Json>)
    requires AreDetails(requested) && i < j < |requested| && !Conflict(requested[i], requested[j], le)
    requires !MatchesTemplate(requested[i], requested[j], le)
    ensures AreDetails(approved) && Answers(approved, requested, le) && !MatchesRequest(approved, requested, le)
  {
    var both := Combined(requested[i], requested[j]);
    CombinedIsDetail(requested[i], requested[j]);
    CombinedMatchesBoth(requested[i], requested[j], le);
    var bound := KeyBound(requested + [both]);
    forall k | 0 <= k < |requested| ensures Bounded(bound)(requested[k]) {
      assert requested[k] in requested + [both];
    }
    assert both in requested + [both];
    approved := SharedCandidateDefeatsMatcher(requested, both, i, j, bound, le);
  }

  lemma SharedCandidateDefeatsMatcher(
      requested: seq<Json>, both: Json, i: nat, j: nat, bound: nat, le: KeyOrder) returns (approved: seq<Json>)
    requires forall k :: 0 <= k < |requested| ==> Bounded(bound)(requested[k])
    requires Bounded(bound)(both) && i < j < |requested|
    requires MatchesTemplate(both, requested[i], le) && MatchesTemplate(both, requested[j], le)
    requires !MatchesTemplate(requested[i], requested[j], le)
    ensures AreDetails(approved) && Answers(approved, requested, le) && !MatchesRequest(approved, requested, le)
  {
    approved := FailingApproval(requested, both, i, j, bound);
    FailingApprovalIsDistinct(requested, both, i, j, bound, le);
    RequestIsContended(requested, both, i, j, bound, le);
    var owns, x := Privates(requested, bound), Private(bound)(both, |requested|);
    var p := DisplacedHasPairing(owns, x, requested, i, j, Sat(le));
    DisplacedDefeatsGreedy(owns, x, requested, i, j, Sat(le));
  }

  /** The exact condition on a request under which the greedy matcher is right about every
      approval: more specific requirements come before the requirements they overlap. */
  lemma GreedyIsRightIffSpecificFirst(requested: seq<Json>, le: KeyOrder)
    requires AreDetails(requested)
    ensures (forall approved :: AreDetails(approved) ==>
               (MatchesRequest(approved, requested, le) <==> Answers(approved, requested, le)))
       <==> SpecificFirst(requested, le)
  {
    if SpecificFirst(requested, le) {
      forall approved | AreDetails(approved)
        ensures MatchesRequest(approved, requested, le) <==> Answers(approved, requested, le)
      {
        SpecificFirstIsSufficient(approved, requested, le);
      }
    } else {
      var i, j :| 0 <= i < j < |requested| && !Conflict(requested[i], requested[j], le)
                  && !MatchesTemplate(requested[i], requested[j], le);
      var approved := BadlyOrderedRequestFails(requested, i, j, le);
    }
  }
}
