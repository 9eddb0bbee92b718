/** Runs from the empty store in which the guards let something through: a lifetime cut, two active rows
    for one use, a request that gets no more tokens, a token that survives a revocation, one that outlives the
    permission it consumes, a blocking row, rows left by a refused approval. */
module AccessExamples {
  import opened Options
  import opened EntitlementLifetimes
  import opened AccessStore
  import opened AccessPlans
  import opened AccessEffects
  import opened AccessRuns
  import opened Sequences
  import opened Runs
  import opened AccessSoundness
  import opened AccessOutcomes
  import opened AccessSafety
  import opened AccessDecisions

  // ------------------------------------------------------------------------ single steps

  lemma Next(h: History, es: seq<Event>, e: Event) returns (g: History, fs: seq<Event>)
    requires IsRun(h, es) && Possible(h, e)
    ensures IsRun(g, fs) && g == h + [After(h, e)] && fs == es + [e]
  {
    g, fs := Snoc(h, es, e, After(h, e), EMPTY, Steps());
  }

  const ALLOWED := Surroundings(true, true)
  const ONCE := Lifetime(Once, None)
  const FOREVER := Lifetime(Persistent, None)

  /** Everything is about agent 1 and resource 1, without a connection. */
  function Use(details: seq<Detail>): Context {
    Context(1, 1, None, details)
  }

  function Waiting(scopes: seq<Scope>, details: seq<Detail>): Request {
    Request(1, 1, None, scopes, details, Pending, [], 600000)
  }

  function Decided(r: Request, details: seq<Detail>, approved: seq<(Scope, Id)>): Request {
    r.(status := Approved, approved := approved, details := details)
  }

  function Asking(read: nat, id: Id, scopes: seq<Scope>, details: seq<Detail>): Event {
    Ask(read, id, Use(details), scopes, 0, [], 600000, ALLOWED)
  }

  lemma AskedWaits(h: History, id: Id, scopes: seq<Scope>, details: seq<Detail>)
    requires id !in Last(h).requests && scopes != [] && Distinct(scopes)
    ensures var e := Asking(|h| - 1, id, scopes, details);
            Possible(h, e) && After(h, e) == Last(h).(requests := Last(h).requests[id := Waiting(scopes, details)])
  {
    PlannedGrant(Last(h), [], Use(details), ONCE, scopes, scopes, 0);
  }

  function ApprovingOf(
      read: nat, request: Id, grant: Lifetime, details: seq<Detail>, now: Time, rows: seq<Id>, newIds: seq<Id>): Event
  {
    Approving(read, Approval(request, grant, None, details, now), rows, newIds, ALLOWED)
  }

  /** An approval of a request for one scope that lists no row, and inserts its own. */
  ghost predicate Inserting(h: History, e: Event, x: Scope) {
    && e.Approving? && Possible(h, e) && e.rows == [] && e.s == ALLOWED && e.a.connection == None
    && e.a.requestId in Last(h).requests && Last(h).requests[e.a.requestId] == h[e.read].requests[e.a.requestId]
    && h[e.read].requests[e.a.requestId] == Waiting([x], h[e.read].requests[e.a.requestId].details)
    && !Taken(Last(h), NewEntitlement(Use(e.a.details), x, e.a.grant), {})
  }

  lemma InsertingWrites(h: History, e: Event, x: Scope)
    requires Inserting(h, e, x)
    ensures var r := e.a.requestId;
            After(h, e) == Last(h).(
              entitlements := Last(h).entitlements[e.newIds[0] := NewEntitlement(Use(e.a.details), x, e.a.grant)],
              requests := Last(h).requests[r := Decided(Last(h).requests[r], e.a.details, [(x, e.newIds[0])])])
  {
    var read, a, id, c := h[e.read], Last(h), e.newIds[0], Use(e.a.details);
    var new_ := (id, NewEntitlement(c, x, e.a.grant));
    assert PlanScopes(read, [], c, e.a.grant, [x][1..], e.newIds[1..]) == Plan([], [], []);
    assert PlanScopes(read, [], c, e.a.grant, [x], e.newIds) == Plan([new_], [], [(x, id)]);
    assert id in e.newIds;
    var mid := a.(entitlements := a.entitlements[id := new_.1]);
    assert InsertAll(a, [new_], e.a.requestId, ALLOWED) == InsertAll(mid, [], e.a.requestId, ALLOWED) == mid;
    assert UpdateAll(mid, []) == Some(mid);
  }

  /** An approval of a request for one scope that finds one row, and rewrites it. */
  ghost predicate Rewriting(h: History, e: Event, x: Scope, k: Id) {
    && e.Approving? && Possible(h, e) && e.rows == [k] && e.s == ALLOWED && e.a.connection == None
    && e.a.requestId in Last(h).requests && Last(h).requests[e.a.requestId] == h[e.read].requests[e.a.requestId]
    && h[e.read].requests[e.a.requestId] == Waiting([x], h[e.read].requests[e.a.requestId].details)
    && k in h[e.read].entitlements && InContext(h[e.read].entitlements[k], Use(e.a.details))
    && h[e.read].entitlements[k].scope == x
    && WantedUpdate(k, h[e.read].entitlements[k], e.a.grant, e.a.details) != []
    && k in Last(h).entitlements
    && Last(h).entitlements == map[k := h[e.read].entitlements[k].(life := Last(h).entitlements[k].life)]
  }

  lemma RewritingWrites(h: History, e: Event, x: Scope, k: Id)
    requires Rewriting(h, e, x, k)
    ensures var r, f := e.a.requestId, h[e.read].entitlements[k];
            After(h, e) == Last(h).(
              entitlements := map[k := f.(life := Merged(f.life, e.a.grant), hash := e.a.details)],
              requests := Last(h).requests[r := Decided(Last(h).requests[r], e.a.details, [(x, k)])])
  {
    var read, a, c := h[e.read], Last(h), Use(e.a.details);
    var f := read.entitlements[k];
    var u := Update(k, Merged(f.life, e.a.grant), e.a.details);
    assert PlanScopes(read, [k], c, e.a.grant, [x][1..], e.newIds[1..]) == Plan([], [], []);
    assert PlanScopes(read, [k], c, e.a.grant, [x], e.newIds) == Plan([], [u], [(x, k)]);
    assert InsertAll(a, [], e.a.requestId, ALLOWED) == a;
    var next := a.(entitlements := a.entitlements[k := f.(life := u.life, hash := u.hash)]);
    assert UpdateEntitlement(a, u) == Some(next);
    assert UpdateAll(a, [u]) == UpdateAll(next, []) == Some(next);
  }

  function Row(details: seq<Detail>, scope: Scope, life: Lifetime): Entitlement {
    NewEntitlement(Use(details), scope, life)
  }

  lemma Asks(h: History, es: seq<Event>, id: Id, scopes: seq<Scope>, details: seq<Detail>)
    returns (g: History, fs: seq<Event>)
    requires IsRun(h, es) && id !in Last(h).requests && scopes != [] && Distinct(scopes)
    ensures IsRun(g, fs) && fs == es + [Asking(|h| - 1, id, scopes, details)]
    ensures g == h + [Last(h).(requests := Last(h).requests[id := Waiting(scopes, details)])]
  {
    AskedWaits(h, id, scopes, details);
    g, fs := Next(h, es, Asking(|h| - 1, id, scopes, details));
  }

  lemma Start() returns (h: History, es: seq<Event>)
    ensures IsRun(h, es) && h == [EMPTY] && es == []
  {
    h, es := [EMPTY], [];
  }

  // ------------------------------------------------------------- a lifetime that gets shorter

  const W5 := Waiting([1], [5])
  const FIVE_SECONDS := Lifetime(UntilExpiry, Some(5000))

  const ONCE_GRANT := ApprovingOf(3, 1, ONCE, [5], 0, [], [7])
  const FOREVER_GRANT := ApprovingOf(4, 2, FOREVER, [5], 0, [7], [8])
  const STALE_GRANT := ApprovingOf(4, 3, FIVE_SECONDS, [5], 0, [7], [8])

  lemma ThreeRequests() returns (h: History, es: seq<Event>)
    ensures IsRun(h, es) && es == [Asking(0, 1, [1], [5]), Asking(1, 2, [1], [5]), Asking(2, 3, [1], [5])]
    ensures |h| == 4 && h[3] == Db(map[], map[1 := W5, 2 := W5, 3 := W5], map[], 0)
  {
    h, es := Start();
    h, es := Asks(h, es, 1, [1], [5]);
    h, es := Asks(h, es, 2, [1], [5]);
    h, es := Asks(h, es, 3, [1], [5]);
  }

  lemma OnceGranted() returns (h: History, es: seq<Event>)
    ensures IsRun(h, es)
    ensures es == [Asking(0, 1, [1], [5]), Asking(1, 2, [1], [5]), Asking(2, 3, [1], [5]), ONCE_GRANT]
    ensures |h| == 5 && h[4].entitlements == map[7 := Row([5], 1, ONCE)] && h[4].leases == map[] && h[4].clock == 0
    ensures h[4].requests == map[1 := Decided(W5, [5], [(1, 7)]), 2 := W5, 3 := W5]
  {
    h, es := ThreeRequests();
    assert Distinct([7]);
    assert IsListing(h[3], 1, 0, []);
    assert Possible(h, ONCE_GRANT);
    InsertingWrites(h, ONCE_GRANT, 1);
    h, es := Next(h, es, ONCE_GRANT);
  }

  lemma ForeverGranted() returns (h: History, es: seq<Event>)
    ensures IsRun(h, es)
    ensures es == [Asking(0, 1, [1], [5]), Asking(1, 2, [1], [5]), Asking(2, 3, [1], [5]), ONCE_GRANT, FOREVER_GRANT]
    ensures |h| == 6 && h[4].entitlements == map[7 := Row([5], 1, ONCE)]
    ensures h[4].requests == map[1 := Decided(W5, [5], [(1, 7)]), 2 := W5, 3 := W5]
    ensures h[5].entitlements == map[7 := Row([5], 1, FOREVER)] && h[5].clock == 0
    ensures h[5].requests == map[1 := Decided(W5, [5], [(1, 7)]), 2 := Decided(W5, [5], [(1, 7)]), 3 := W5]
  {
    h, es := OnceGranted();
    assert Distinct([8]);
    assert IsListing(h[4], 1, 0, [7]);
    assert Possible(h, FOREVER_GRANT);
    assert Rewriting(h, FOREVER_GRANT, 1, 7);
    RewritingWrites(h, FOREVER_GRANT, 1, 7);
    h, es := Next(h, es, FOREVER_GRANT);
  }

  /** Three requests; the first is approved for one use, the second for ever. A controller who approves the
      third for five seconds, from a read made before the second approval, cuts the permission down. */
  lemma StaleApprovalShortens() returns (h: History, es: seq<Event>)
    ensures IsRun(h, es) && |h| == 7
    ensures es == [Asking(0, 1, [1], [5]), Asking(1, 2, [1], [5]), Asking(2, 3, [1], [5]),
                   ONCE_GRANT, FOREVER_GRANT, STALE_GRANT]
    ensures h[5].entitlements == map[7 := Row([5], 1, FOREVER)]
    ensures h[6].entitlements == map[7 := Row([5], 1, FIVE_SECONDS)]
  {
    h, es := ForeverGranted();
    assert Distinct([8]);
    assert IsListing(h[4], 1, 0, [7]);
    assert Possible(h, STALE_GRANT);
    assert Rewriting(h, STALE_GRANT, 1, 7);
    RewritingWrites(h, STALE_GRANT, 1, 7);
    h, es := Next(h, es, STALE_GRANT);
  }

  // ---------------------------------------------------------- two active rows for one use

  const W56 := Waiting([1], [5, 6])
  const PERMUTED_GRANT := ApprovingOf(2, 1, FOREVER, [6, 5], 0, [], [7])
  const ORDERED_GRANT := ApprovingOf(2, 2, FOREVER, [5, 6], 0, [], [8])

  lemma PermutedGranted() returns (h: History, es: seq<Event>)
    ensures IsRun(h, es) && es == [Asking(0, 1, [1], [5, 6]), Asking(1, 2, [1], [5, 6]), PERMUTED_GRANT]
    ensures |h| == 4 && h[2] == Db(map[], map[1 := W56, 2 := W56], map[], 0)
    ensures h[3] == Db(map[7 := Row([6, 5], 1, FOREVER)], map[1 := Decided(W56, [6, 5], [(1, 7)]), 2 := W56], map[], 0)
  {
    h, es := Start();
    h, es := Asks(h, es, 1, [1], [5, 6]);
    h, es := Asks(h, es, 2, [1], [5, 6]);
    assert Distinct([7]);
    assert IsListing(h[2], 1, 0, []);
    assert Possible(h, PERMUTED_GRANT);
    InsertingWrites(h, PERMUTED_GRANT, 1);
    h, es := Next(h, es, PERMUTED_GRANT);
  }

  lemma TwoRowsOneUse(b: Db)
    requires b.entitlements == map[7 := Row([6, 5], 1, FOREVER), 8 := Row([5, 6], 1, FOREVER)]
    ensures !UsesUnique(b)
  {
    assert multiset([6, 5]) == multiset{5, 6} == multiset([5, 6]);
    assert Active(b.entitlements[7], b.clock) && Active(b.entitlements[8], b.clock);
    assert SameUse(b.entitlements[7], b.entitlements[8]);
  }

  lemma OrderedWrites(h: History)
    requires |h| == 4 && h[2] == Db(map[], map[1 := W56, 2 := W56], map[], 0)
    requires h[3] == Db(map[7 := Row([6, 5], 1, FOREVER)], map[1 := Decided(W56, [6, 5], [(1, 7)]), 2 := W56], map[], 0)
    ensures Possible(h, ORDERED_GRANT)
    ensures After(h, ORDERED_GRANT).entitlements == map[7 := Row([6, 5], 1, FOREVER), 8 := Row([5, 6], 1, FOREVER)]
  {
    assert Distinct([8]);
    assert IsListing(h[2], 1, 0, []);
    assert Possible(h, ORDERED_GRANT);
    assert Row([6, 5], 1, FOREVER).hash[0] != Row([5, 6], 1, FOREVER).hash[0];
    InsertingWrites(h, ORDERED_GRANT, 1);
  }

  /** The unique index compares the digest of the ordered list, so two approvals of the same details in
      different orders that read at the same time leave two active rows for one scope. */
  lemma PermutedApprovalsDuplicate() returns (h: History, es: seq<Event>)
    ensures IsRun(h, es) && |h| == 5
    ensures es == [Asking(0, 1, [1], [5, 6]), Asking(1, 2, [1], [5, 6]), PERMUTED_GRANT, ORDERED_GRANT]
    ensures UsesUnique(h[3]) && !UsesUnique(h[4])
    ensures h[4].entitlements == map[7 := Row([6, 5], 1, FOREVER), 8 := Row([5, 6], 1, FOREVER)]
  {
    h, es := PermutedGranted();
    OrderedWrites(h);
    h, es := Next(h, es, ORDERED_GRANT);
    TwoRowsOneUse(h[4]);
  }

  // --------------------------------------------------- a request that gets no more tokens

  const REORDERING_GRANT := ApprovingOf(3, 2, FOREVER, [5, 6], 0, [7], [8])
  const REFUSED_ISSUE := Issue(4, 1, [7], 0, 0, 300000, 9, ALLOWED)

  ghost predicate PermutedIsGranted(h: History) {
    && |h| == 4
    && h[3] == Db(map[7 := Row([6, 5], 1, FOREVER)], map[1 := Decided(W56, [6, 5], [(1, 7)]), 2 := W56], map[], 0)
  }

  lemma ReorderingIsPossible(h: History)
    requires PermutedIsGranted(h)
    ensures Possible(h, REORDERING_GRANT)
  {
    assert Distinct([8]);
    assert IsListing(h[3], 1, 0, [7]);
  }

  lemma ReorderingRewrites(h: History)
    requires PermutedIsGranted(h) && Possible(h, REORDERING_GRANT)
    ensures Rewriting(h, REORDERING_GRANT, 1, 7)
  {
    assert multiset([6, 5]) == multiset{5, 6} == multiset([5, 6]);
    assert Row([6, 5], 1, FOREVER).hash[0] != REORDERING_GRANT.a.details[0];
  }

  lemma Reordered() returns (h: History, es: seq<Event>)
    ensures IsRun(h, es) && |h| == 5
    ensures es == [Asking(0, 1, [1], [5, 6]), Asking(1, 2, [1], [5, 6]), PERMUTED_GRANT, REORDERING_GRANT]
    ensures h[4].entitlements == map[7 := Row([6, 5], 1, FOREVER).(hash := [5, 6])]
    ensures h[4].requests == map[1 := Decided(W56, [6, 5], [(1, 7)]), 2 := Decided(W56, [5, 6], [(1, 7)])]
    ensures h[4].leases == map[] && h[4].clock == 0
  {
    h, es := PermutedGranted();
    ReorderingIsPossible(h);
    ReorderingRewrites(h);
    RewritingWrites(h, REORDERING_GRANT, 1, 7);
    h, es := Next(h, es, REORDERING_GRANT);
  }

  lemma OneIsSelected(a: Db)
    requires a.entitlements == map[7 := Row([6, 5], 1, FOREVER).(hash := [5, 6])] && a.clock == 0
    requires 1 in a.requests && a.requests[1] == Decided(W56, [6, 5], [(1, 7)])
    ensures IsSelection(a, ContextOf(a.requests[1]), 0, [7]) && EarliestExpiry(a, [7]) == None
    ensures !SuppliedHolds(a, ContextOf(a.requests[1]), ScopesOf(a, [7]), 0, 7)
  {
    assert EarliestExpiry(a, [7][1..]) == None;
    assert [5, 6][0] != [6, 5][0];
  }

  /** Two requests approved for ever, one after the other, with the details in two orders: the second approval
      rewrites the digest of the row, and the first request gets no token any more. */
  lemma ReorderedApprovalStopsTokens() returns (h: History, es: seq<Event>)
    ensures IsRun(h, es) && |h| == 5
    ensures es == [Asking(0, 1, [1], [5, 6]), Asking(1, 2, [1], [5, 6]), PERMUTED_GRANT, REORDERING_GRANT]
    ensures Possible(h, REFUSED_ISSUE) && After(h, REFUSED_ISSUE) == Last(h)
  {
    h, es := Reordered();
    OneIsSelected(h[4]);
    assert [7] == REFUSED_ISSUE.rows && 7 in REFUSED_ISSUE.rows;
  }

  // ------------------------------------------------------ a token that survives a revocation

  const GRANT := ApprovingOf(1, 1, FOREVER, [5], 0, [], [7])
  const ISSUE := Issue(2, 1, [7], 0, 0, 300000, 9, ALLOWED)
  const LATE_REVOKE := Revoke(2, 7, 0)

  lemma Granted() returns (h: History, es: seq<Event>)
    ensures IsRun(h, es) && es == [Asking(0, 1, [1], [5]), GRANT]
    ensures |h| == 3 && h[2] == Db(map[7 := Row([5], 1, FOREVER)], map[1 := Decided(W5, [5], [(1, 7)])], map[], 0)
  {
    h, es := Start();
    h, es := Asks(h, es, 1, [1], [5]);
    assert Distinct([7]);
    assert IsListing(h[1], 1, 0, []);
    assert Possible(h, GRANT);
    InsertingWrites(h, GRANT, 1);
    h, es := Next(h, es, GRANT);
  }

  lemma IssueWrites(h: History)
    requires |h| == 3 && h[2] == Db(map[7 := Row([5], 1, FOREVER)], map[1 := Decided(W5, [5], [(1, 7)])], map[], 0)
    ensures Possible(h, ISSUE)
    ensures After(h, ISSUE).entitlements == h[2].entitlements
    ensures After(h, ISSUE).leases == map[9 := Lease([7], 1, 300000, false)] && After(h, ISSUE).clock == 0
  {
    var a := h[2];
    IssueSelects(h);
    assert SuppliedHolds(a, ContextOf(a.requests[1]), [1], 0, 7);
    assert Leasable(a, IssuedLease(ISSUE), ContextOf(a.requests[1]), [1], 0, ALLOWED);
    assert Consume(a, []) == a.entitlements;
  }

  lemma IssueSelects(h: History)
    requires |h| == 3 && h[2] == Db(map[7 := Row([5], 1, FOREVER)], map[1 := Decided(W5, [5], [(1, 7)])], map[], 0)
    ensures Possible(h, ISSUE)
    ensures IssuedSelection(h[2]) && OnceIds(h[2], [7]) == [] && ScopesOf(h[2], [7]) == [1]
  {
    var a := h[2];
    assert IsSelection(a, ContextOf(a.requests[1]), 0, [7]);
    assert EarliestExpiry(a, [7][1..]) == None && EarliestExpiry(a, [7]) == None;
    assert OnceIds(a, [7][1..]) == [] && OnceIds(a, [7]) == [];
    assert ScopesOf(a, [7]) == [1];
  }

  predicate IssuedSelection(a: Db) {
    1 in a.requests && 7 in a.entitlements && IsSelection(a, ContextOf(a.requests[1]), 0, [7])
  }

  lemma Issued() returns (h: History, es: seq<Event>)
    ensures IsRun(h, es) && es == [Asking(0, 1, [1], [5]), GRANT, ISSUE]
    ensures |h| == 4 && h[2].entitlements == map[7 := Row([5], 1, FOREVER)] && h[2].leases == map[] && h[2].clock == 0
    ensures h[3].entitlements == map[7 := Row([5], 1, FOREVER)]
    ensures h[3].leases == map[9 := Lease([7], 1, 300000, false)] && h[3].clock == 0
  {
    h, es := Granted();
    IssueWrites(h);
    h, es := Next(h, es, ISSUE);
  }

  /** A token issued between a revocation's listing of the leases and its write is live afterwards, although
      the entitlement it names is revoked. */
  lemma TokenSurvivesRevocation() returns (h: History, es: seq<Event>)
    ensures IsRun(h, es) && |h| == 5 && es == [Asking(0, 1, [1], [5]), GRANT, ISSUE, LATE_REVOKE]
    ensures 7 in h[4].entitlements && h[4].entitlements[7].ended == Some(Revoked)
    ensures 9 in LiveLeases(h[4], 7, h[4].clock)
  {
    h, es := Issued();
    assert Possible(h, LATE_REVOKE);
    assert LiveLeases(h[2], 7, 0) == {};
    h, es := Next(h, es, LATE_REVOKE);
  }

  // ---------------------------------------------- a token that outlives what it was issued for

  const UNTIL_100 := Lifetime(UntilExpiry, Some(100))
  const UPGRADE := ApprovingOf(4, 2, UNTIL_100, [5], 0, [7], [8])
  const LATE_ISSUE := Issue(4, 1, [7], 0, 0, 300000, 9, ALLOWED)

  lemma Upgraded() returns (h: History, es: seq<Event>)
    ensures IsRun(h, es)
    ensures es == [Asking(0, 1, [1], [5]), Asking(1, 2, [1], [5]), Asking(2, 3, [1], [5]), ONCE_GRANT, UPGRADE]
    ensures |h| == 6 && h[4].entitlements == map[7 := Row([5], 1, ONCE)] && h[5].leases == map[]
    ensures h[4].requests == map[1 := Decided(W5, [5], [(1, 7)]), 2 := W5, 3 := W5]
    ensures h[5].entitlements == map[7 := Row([5], 1, UNTIL_100)] && h[5].clock == 0
    ensures h[5].requests == map[1 := Decided(W5, [5], [(1, 7)]), 2 := Decided(W5, [5], [(1, 7)]), 3 := W5]
  {
    h, es := OnceGranted();
    assert Distinct([8]);
    assert IsListing(h[4], 1, 0, [7]);
    assert Possible(h, UPGRADE);
    assert Rewriting(h, UPGRADE, 1, 7);
    RewritingWrites(h, UPGRADE, 1, 7);
    h, es := Next(h, es, UPGRADE);
  }

  /** What the issue reads: a row without an expiry, to be consumed. */
  lemma OnceSelection(a: Db)
    requires a.entitlements == map[7 := Row([5], 1, ONCE)] && 1 in a.requests
    requires a.requests[1] == Decided(W5, [5], [(1, 7)])
    ensures IssuedSelection(a) && EarliestExpiry(a, [7]) == None && OnceIds(a, [7]) == [7] && ScopesOf(a, [7]) == [1]
  {
    assert IsSelection(a, ContextOf(a.requests[1]), 0, [7]);
    assert EarliestExpiry(a, [7][1..]) == None;
    assert OnceIds(a, [7][1..]) == [];
    assert ScopesOf(a, [7]) == [1];
  }

  lemma LateIssueWrites(h: History)
    requires |h| == 6 && h[4].entitlements == map[7 := Row([5], 1, ONCE)] && 1 in h[4].requests && 1 in h[5].requests
    requires h[4].requests[1] == h[5].requests[1] == Decided(W5, [5], [(1, 7)])
    requires h[5].entitlements == map[7 := Row([5], 1, UNTIL_100)] && h[5].clock == 0 && h[5].leases == map[]
    ensures Possible(h, LATE_ISSUE)
    ensures After(h, LATE_ISSUE).entitlements == map[7 := Row([5], 1, UNTIL_100).(ended := Some(Consumed))]
    ensures After(h, LATE_ISSUE).leases == map[9 := Lease([7], 1, 300000, false)]
  {
    var read, a := h[4], h[5];
    OnceSelection(read);
    assert SuppliedHolds(a, ContextOf(read.requests[1]), [1], 0, 7);
    assert Leasable(a, IssuedLease(LATE_ISSUE), ContextOf(read.requests[1]), [1], 0, ALLOWED);
    assert Consume(a, [7]) == map[7 := Row([5], 1, UNTIL_100).(ended := Some(Consumed))];
  }

  /** A token is issued for a single-use permission that was extended until 100 since it was read: it consumes
      the extended permission, and lives until 300000. */
  lemma TokenOutlivesUpgrade() returns (h: History, es: seq<Event>)
    ensures IsRun(h, es) && |h| == 7
    ensures es == [Asking(0, 1, [1], [5]), Asking(1, 2, [1], [5]), Asking(2, 3, [1], [5]), ONCE_GRANT, UPGRADE, LATE_ISSUE]
    ensures h[5].entitlements == map[7 := Row([5], 1, UNTIL_100)] && Safe(h[5])
    ensures h[6].entitlements == map[7 := Row([5], 1, UNTIL_100).(ended := Some(Consumed))]
    ensures 9 in h[6].leases && h[6].leases[9].expiresAt == 300000 && !LeaseSafe(h[6], h[6].leases[9])
  {
    h, es := Upgraded();
    LateIssueWrites(h);
    h, es := Next(h, es, LATE_ISSUE);
    assert !NamedSafe(h[6].entitlements[7], h[6].leases[9], h[6].clock);
  }

  // -------------------------------------------------- a blocking row, and what is left behind

  const SHORT := Lifetime(UntilExpiry, Some(100))
  const SHORT_GRANT := ApprovingOf(1, 1, SHORT, [5], 0, [], [7])
  const BLOCKED_GRANT := ApprovingOf(4, 2, FOREVER, [5], 200, [], [8, 9])

  lemma ShortGranted() returns (h: History, es: seq<Event>)
    ensures IsRun(h, es) && es == [Asking(0, 1, [1], [5]), SHORT_GRANT]
    ensures |h| == 3 && h[2] == Db(map[7 := Row([5], 1, SHORT)], map[1 := Decided(W5, [5], [(1, 7)])], map[], 0)
  {
    h, es := Start();
    h, es := Asks(h, es, 1, [1], [5]);
    assert Distinct([7]);
    assert IsListing(h[1], 1, 0, []);
    assert Possible(h, SHORT_GRANT);
    InsertingWrites(h, SHORT_GRANT, 1);
    h, es := Next(h, es, SHORT_GRANT);
  }

  lemma Expired() returns (h: History, es: seq<Event>)
    ensures IsRun(h, es) && es == [Asking(0, 1, [1], [5]), SHORT_GRANT, Tick(200), Asking(3, 2, [1, 2], [5])]
    ensures |h| == 5 && h[4].entitlements == map[7 := Row([5], 1, SHORT)] && h[4].clock == 200 && h[4].leases == map[]
    ensures h[4].requests == map[1 := Decided(W5, [5], [(1, 7)]), 2 := Waiting([1, 2], [5])]
  {
    h, es := ShortGranted();
    h, es := Next(h, es, Tick(200));
    h, es := Asks(h, es, 2, [1, 2], [5]);
  }

  lemma BlockedPlan(db: Db)
    ensures PlanScopes(db, [], Use([5]), FOREVER, [1, 2], [8, 9])
         == Plan([(8, Row([5], 1, FOREVER)), (9, Row([5], 2, FOREVER))], [], [(1, 8), (2, 9)])
  {
    var c := Use([5]);
    assert [1, 2][1..] == [2] && [8, 9][1..] == [9] && [2][1..] == [] && [9][1..] == [];
    assert PlanScopes(db, [], c, FOREVER, [], []) == Plan([], [], []);
    assert PlanScopes(db, [], c, FOREVER, [2], [9]) == Plan([(9, Row([5], 2, FOREVER))], [], [(2, 9)]);
  }

  lemma BlockedCommit(a: Db)
    requires a.entitlements == map[7 := Row([5], 1, SHORT)] && 2 in a.requests && a.requests[2] == Waiting([1, 2], [5])
    ensures var d := Decision(2, None, [5], [(8, Row([5], 1, FOREVER)), (9, Row([5], 2, FOREVER))], [], [(1, 8), (2, 9)]);
            && Approve(a, d, ALLOWED) == Some(a.(entitlements := map[7 := Row([5], 1, SHORT), 9 := Row([5], 2, FOREVER)]))
            && ApprovalOutcome(a, d, ALLOWED).EntitlementsChanged?
  {
    var i, j := (8, Row([5], 1, FOREVER)), (9, Row([5], 2, FOREVER));
    assert SameSlot(a.entitlements[7], i.1);
    assert InsertEntitlement(a, 8, i.1, 2, ALLOWED) == a;
    var b := InsertEntitlement(a, 9, j.1, 2, ALLOWED);
    assert !Taken(a, j.1, {});
    assert b == a.(entitlements := map[7 := Row([5], 1, SHORT), 9 := j.1]);
    assert [i, j][1..] == [j] && [j][1..] == [];
    assert InsertAll(b, [], 2, ALLOWED) == b && InsertAll(a, [j], 2, ALLOWED) == b && InsertAll(a, [i, j], 2, ALLOWED) == b;
    assert UpdateAll(b, []) == Some(b);
    assert i in [i, j] && 8 !in b.entitlements;
    var d := Decision(2, None, [5], [i, j], [], [(1, 8), (2, 9)]);
    assert (1, 8) in d.approved && !GrantHolds(b, b.requests[2], None, (1, 8));
  }

  ghost predicate Refused(h: History, e: Event) {
    && e.Approving? && Possible(h, e) && Approve(Last(h), ApprovingDecision(h, e), e.s).Some?
    && ApprovalOutcome(Last(h), ApprovingDecision(h, e), e.s).EntitlementsChanged?
  }

  /** An expired row that was never ended blocks the approval of a later request; and what that approval could
      insert for its other scope stays active, under a request that is still pending. */
  lemma BlockedApprovalLeavesRow() returns (h: History, es: seq<Event>)
    ensures IsRun(h, es) && |h| == 6
    ensures es == [Asking(0, 1, [1], [5]), SHORT_GRANT, Tick(200), Asking(3, 2, [1, 2], [5]), BLOCKED_GRANT]
    ensures Blocked(h[4], Use([5]), [1, 2], 200) && Refused(h[..5], BLOCKED_GRANT)
    ensures h[5].entitlements == map[7 := Row([5], 1, SHORT), 9 := Row([5], 2, FOREVER)]
    ensures Active(h[5].entitlements[9], h[5].clock) && 2 in h[5].requests && h[5].requests[2].status == Pending
  {
    h, es := Expired();
    assert Distinct([8, 9]);
    assert IsListing(h[4], 1, 200, []);
    assert Possible(h, BLOCKED_GRANT);
    BlockedPlan(h[4]);
    BlockedCommit(h[4]);
    assert Blocking(h[4].entitlements[7], Use([5]), [1, 2], 200);
    var g := h;
    assert Refused(g, BLOCKED_GRANT);
    h, es := Next(h, es, BLOCKED_GRANT);
    assert h[..5] == g;
  }
}
