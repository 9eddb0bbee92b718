/** When a token is issued: exactly which issues take effect, and that a persistent permission yields any
    number of tokens. */
module AccessIssues {
  import opened Options
  import opened EntitlementLifetimes
  import opened AccessStore
  import opened AccessPlans
  import opened AccessEffects
  import opened AccessRuns
  import opened Sequences
  import opened Runs
  import opened AccessSoundness
  import opened AccessSafety
  import opened AccessBacking

  predicate LeaseWritten(h: History, e: Event, b: Db)
    requires e.Issue? && e.request in Last(h).requests
  {
    var a := Last(h);
    && b.leases == a.leases[e.lease := Lease(e.rows, e.request, e.expiresAt, false)]
    && b.requests == a.requests[e.request := a.requests[e.request].(status := Spent)]
    && b.clock == a.clock && b.entitlements.Keys == a.entitlements.Keys
  }

  predicate RowWritten(h: History, e: Event, k: Id, row: Entitlement)
    requires e.Issue? && Possible(h, e) && k in Last(h).entitlements
  {
    row == if k in e.rows && h[e.read].entitlements[k].life.mode.Once?
           then Last(h).entitlements[k].(ended := Some(Consumed)) else Last(h).entitlements[k]
  }

  /** What an issue writes: one more lease, the request consumed, the rows that were single-use as read ended. */
  ghost predicate Written(h: History, e: Event, b: Db)
    requires e.Issue? && Possible(h, e) && e.request in Last(h).requests
  {
    && LeaseWritten(h, e, b)
    && forall k :: k in Last(h).entitlements ==> k in b.entitlements && RowWritten(h, e, k, b.entitlements[k])
  }

  /** The row still has the digest of the request's own ordered details, and is active. */
  predicate Suppliable(a: Db, k: Id, details: seq<Detail>, created: Time) {
    k in a.entitlements && a.entitlements[k].hash == details && Active(a.entitlements[k], created)
  }

  lemma SuppliedIff(h: History, e: Event, k: Id)
    requires e.Issue? && Possible(h, e) && GoodHistory(h) && k in e.rows
    ensures var q, a := h[e.read].requests[e.request], Last(h);
            SuppliedHolds(a, ContextOf(q), ScopesOf(h[e.read], e.rows), e.created, k)
            <==> Suppliable(a, k, q.details, e.created)
  {
    var read, a := h[e.read], Last(h);
    assert Keeps(read, h[|h| - 1]) && RowKept(read.entitlements[k], a.entitlements[k]);
    var scopes := ScopesOf(read, e.rows);
    var i :| 0 <= i < |e.rows| && e.rows[i] == k;
    assert scopes[i] == read.entitlements[k].scope;
  }

  lemma RowKeepsScope(h: History, e: Event, i: nat)
    requires e.Issue? && Possible(h, e) && GoodHistory(h) && i < |e.rows|
    ensures e.rows[i] in h[e.read].entitlements && e.rows[i] in Last(h).entitlements
    ensures Last(h).entitlements[e.rows[i]].scope == h[e.read].entitlements[e.rows[i]].scope
  {
    assert Keeps(h[e.read], h[|h| - 1]);
    assert RowKept(h[e.read].entitlements[e.rows[i]], Last(h).entitlements[e.rows[i]]);
  }

  lemma EveryScopeSupplied(h: History, e: Event)
    requires e.Issue? && Possible(h, e) && GoodHistory(h)
    ensures forall s :: s in ScopesOf(h[e.read], e.rows) ==>
              exists id :: id in e.rows && id in Last(h).entitlements && Last(h).entitlements[id].scope == s
  {
    var read, a := h[e.read], Last(h);
    var scopes := ScopesOf(read, e.rows);
    forall s | s in scopes
      ensures exists id :: id in e.rows && id in a.entitlements && a.entitlements[id].scope == s
    {
      var i :| 0 <= i < |scopes| && scopes[i] == s;
      RowKeepsScope(h, e, i);
    }
  }

  ghost predicate AllSuppliable(h: History, e: Event)
    requires e.Issue? && Possible(h, e)
  {
    forall k :: k in e.rows ==> Suppliable(Last(h), k, h[e.read].requests[e.request].details, e.created)
  }

  lemma EveryRowSupplied(h: History, e: Event)
    requires e.Issue? && Possible(h, e) && GoodHistory(h)
    ensures var q := h[e.read].requests[e.request];
            (forall k :: k in e.rows ==> SuppliedHolds(Last(h), ContextOf(q), ScopesOf(h[e.read], e.rows), e.created, k))
            <==> AllSuppliable(h, e)
  {
    var q := h[e.read].requests[e.request];
    forall k | k in e.rows
      ensures SuppliedHolds(Last(h), ContextOf(q), ScopesOf(h[e.read], e.rows), e.created, k)
         <==> Suppliable(Last(h), k, q.details, e.created)
    {
      SuppliedIff(h, e, k);
    }
  }

  /** The request that was decided when it was read is decided still, and as it was. */
  lemma RequestIsThere(h: History, e: Event)
    requires e.Issue? && Possible(h, e) && GoodHistory(h)
    ensures e.request in Last(h).requests
    ensures var q, r := h[e.read].requests[e.request], Last(h).requests[e.request];
            (r.status.Approved? || r.status.Spent?) && ContextOf(r) == ContextOf(q)
  {
    assert Keeps(h[e.read], h[|h| - 1]);
    assert RequestKept(h[e.read].requests[e.request], Last(h).requests[e.request]);
  }

  lemma IssuesIff(h: History, e: Event)
    requires e.Issue? && Possible(h, e) && GoodHistory(h)
    ensures Issues(h, e)
       <==> (&& e.s.resourceEnabled && (h[e.read].requests[e.request].connection.Some? ==> e.s.connectionActive)
             && AllSuppliable(h, e))
  {
    RequestIsThere(h, e);
    EveryRowSupplied(h, e);
    EveryScopeSupplied(h, e);
  }

  lemma IssueWritesRow(h: History, e: Event, k: Id)
    requires e.Issue? && Possible(h, e) && Issues(h, e) && k in Last(h).entitlements
    ensures k in After(h, e).entitlements && RowWritten(h, e, k, After(h, e).entitlements[k])
  {
    IssueEndsIff(h, e, k);
  }

  lemma IssueWritesLease(h: History, e: Event)
    requires e.Issue? && Possible(h, e) && Issues(h, e)
    ensures e.request in Last(h).requests && LeaseWritten(h, e, After(h, e))
  {
  }

  /** Whatever was committed since it read, and for a first token as for every later one: an issue takes effect
      exactly when the resource and the connection are usable, and each selected row still has the digest of the
      request's details, in their order, and is active. Otherwise nothing is written. */
  lemma IssueTakesEffectIff(h: History, e: Event)
    requires e.Issue? && Possible(h, e) && GoodHistory(h)
    ensures e.request in Last(h).requests
    ensures After(h, e) != Last(h)
       <==> (&& e.s.resourceEnabled && (h[e.read].requests[e.request].connection.Some? ==> e.s.connectionActive)
             && AllSuppliable(h, e))
    ensures After(h, e) != Last(h) ==> Written(h, e, After(h, e))
  {
    RequestIsThere(h, e);
    IssuesIff(h, e);
    if Issues(h, e) {
      IssueWritesLease(h, e);
      assert e.lease in After(h, e).leases && e.lease !in Last(h).leases;
      forall k | k in Last(h).entitlements
        ensures k in After(h, e).entitlements && RowWritten(h, e, k, After(h, e).entitlements[k])
      {
        IssueWritesRow(h, e, k);
      }
    }
  }

  /** With nothing between its reads and its write, an issue in a usable store takes effect exactly when every
      selected row carries the digest of the request's own ordered details, which a later approval in another
      order rewrites. */
  lemma IssueAloneSucceedsIff(h: History, e: Event)
    requires e.Issue? && Possible(h, e) && GoodHistory(h)
    requires e.read == |h| - 1 && e.now == e.created == Last(h).clock
    requires e.s.resourceEnabled && e.s.connectionActive
    ensures e.request in Last(h).requests
    ensures Written(h, e, After(h, e))
       <==> forall k :: k in e.rows ==> Last(h).entitlements[k].hash == Last(h).requests[e.request].details
  {
    IssueTakesEffectIff(h, e);
  }

  // ------------------------------------------------------------------------- how long it lasts

  predicate WithinRows(db: Db, rows: seq<Id>, t: Time)
    requires forall k :: k in rows ==> k in db.entitlements
  {
    forall k :: k in rows && db.entitlements[k].life.expiresAt.Some? ==> t <= db.entitlements[k].life.expiresAt.value
  }

  /** A token of an external resource lasts the seconds its token endpoint named, in milliseconds: an answer is
      accepted exactly when that is at most an hour and no row it is issued for expires before. */
  lemma ExternalExpiryIff(db: Db, rows: seq<Id>, now: Time, seconds: Time, t: Time)
    requires forall k :: k in rows ==> k in db.entitlements
    ensures ExternalExpiry(EarliestExpiry(db, rows), now, seconds) == Some(t)
       <==> 0 < seconds <= 3600 && t - now == 1000 * seconds && WithinRows(db, rows, t)
  {
    EarliestExpiryBounds(db, rows, now + 1000 * seconds);
  }

  /** A token of a native resource lasts as long as its rows allow, up to five minutes. */
  lemma NativeExpiryIsLatest(db: Db, rows: seq<Id>, now: Time, t: Time)
    requires forall k :: k in rows ==> k in db.entitlements
    ensures t <= NativeExpiry(EarliestExpiry(db, rows), now) <==> t - now <= 5 * 60 * 1000 && WithinRows(db, rows, t)
  {
    EarliestExpiryBounds(db, rows, t);
  }

  // ---------------------------------------------------------------------- token after token

  /** The request is decided, and all that is selected for it is permanent and carries its digest. */
  ghost predicate Lasting(db: Db, request: Id, rows: seq<Id>) {
    && request in db.requests
    && var r := db.requests[request];
    && (r.status == Approved || r.status == Spent) && r.connection.None?
    && IsSelection(db, ContextOf(r), db.clock, rows) && rows != []
    && forall k :: k in rows ==> db.entitlements[k].life.mode.Persistent? && db.entitlements[k].hash == r.details
  }

  function NextIssue(h: History, request: Id, rows: seq<Id>, lease: Id): Event
    requires forall k :: k in rows ==> k in Last(h).entitlements
  {
    var now := Last(h).clock;
    Issue(|h| - 1, request, rows, now, now, NativeExpiry(EarliestExpiry(Last(h), rows), now), lease, Surroundings(true, true))
  }

  lemma NextIsPossible(h: History, request: Id, rows: seq<Id>, lease: Id)
    requires Lasting(Last(h), request, rows) && lease !in Last(h).leases
    ensures Possible(h, NextIssue(h, request, rows, lease))
  {
  }

  lemma NextIsSuppliable(h: History, request: Id, rows: seq<Id>, lease: Id)
    requires Lasting(Last(h), request, rows) && Possible(h, NextIssue(h, request, rows, lease))
    ensures AllSuppliable(h, NextIssue(h, request, rows, lease))
  {
  }

  /** Nothing single-use was selected, so the rows stay. */
  lemma RowsStay(h: History, request: Id, rows: seq<Id>, lease: Id)
    requires Lasting(Last(h), request, rows) && Possible(h, NextIssue(h, request, rows, lease))
    requires Written(h, NextIssue(h, request, rows, lease), After(h, NextIssue(h, request, rows, lease)))
    ensures After(h, NextIssue(h, request, rows, lease)).entitlements == Last(h).entitlements
  {
    var e := NextIssue(h, request, rows, lease);
    forall k | k in Last(h).entitlements ensures After(h, e).entitlements[k] == Last(h).entitlements[k] {
      assert RowWritten(h, e, k, After(h, e).entitlements[k]);
    }
  }

  lemma LastingStays(a: Db, b: Db, request: Id, rows: seq<Id>)
    requires Lasting(a, request, rows) && b.entitlements == a.entitlements && b.clock == a.clock
    requires b.requests == a.requests[request := a.requests[request].(status := Spent)]
    ensures Lasting(b, request, rows)
  {
  }

  lemma IssuesAgain(h: History, request: Id, rows: seq<Id>, lease: Id)
    requires GoodHistory(h) && Lasting(Last(h), request, rows) && lease !in Last(h).leases
    ensures var e := NextIssue(h, request, rows, lease);
            && Possible(h, e) && Written(h, e, After(h, e)) && Lasting(After(h, e), request, rows)
  {
    var e := NextIssue(h, request, rows, lease);
    NextIsPossible(h, request, rows, lease);
    NextIsSuppliable(h, request, rows, lease);
    IssueTakesEffectIff(h, e);
    RowsStay(h, request, rows, lease);
    LastingStays(Last(h), After(h, e), request, rows);
  }

  /** A step that adds its lease for the request. */
  predicate Adds(a: Db, e: Event, b: Db, request: Id) {
    e.Issue? && e.request == request && e.lease !in a.leases && e.lease in b.leases
  }

  /** The run goes on with issues for the request, each adding its lease. */
  ghost predicate IssuesFollow(h: History, es: seq<Event>, g: History, fs: seq<Event>, request: Id) {
    && |g| == |fs| + 1 && |h| == |es| + 1 && h <= g && es <= fs
    && forall i :: |es| <= i < |fs| ==> Adds(g[i], fs[i], g[i + 1], request)
  }

  lemma OneMoreFollows(
      h: History, es: seq<Event>, g: History, fs: seq<Event>, request: Id, e: Event, b: Db)
    requires IssuesFollow(h, es, g, fs, request) && Adds(Last(g), e, b, request)
    ensures IssuesFollow(h, es, g + [b], fs + [e], request)
  {
    var g', fs' := g + [b], fs + [e];
    forall i | |es| <= i < |fs'| ensures Adds(g'[i], fs'[i], g'[i + 1], request) {
      if i < |fs| { assert Adds(g[i], fs[i], g[i + 1], request); }
    }
  }

  lemma OneMoreToken(h: History, es: seq<Event>, request: Id, rows: seq<Id>) returns (e: Event, b: Db)
    requires IsRun(h, es) && Lasting(Last(h), request, rows)
    ensures IsRun(h + [b], es + [e]) && Adds(Last(h), e, b, request) && Lasting(b, request, rows)
  {
    RunsAreSound(h, es);
    var lease := FreshNat(Last(h).leases.Keys);
    e := NextIssue(h, request, rows, lease);
    IssuesAgain(h, request, rows, lease);
    b := After(h, e);
    var g, fs := Snoc(h, es, e, b, EMPTY, Steps());
  }

  /** On a permanent permission any number of tokens can be issued, one after the other. */
  lemma {:induction false} AnyNumberOfTokens(h: History, es: seq<Event>, request: Id, rows: seq<Id>, n: nat)
    returns (g: History, fs: seq<Event>)
    requires IsRun(h, es) && |h| == |es| + 1 && Lasting(Last(h), request, rows)
    ensures IsRun(g, fs) && |fs| == |es| + n && IssuesFollow(h, es, g, fs, request) && Lasting(Last(g), request, rows)
  {
    if n == 0 {
      g, fs := h, es;
    } else {
      g, fs := AnyNumberOfTokens(h, es, request, rows, n - 1);
      var e, b := OneMoreToken(g, fs, request, rows);
      OneMoreFollows(h, es, g, fs, request, e, b);
      g, fs := g + [b], fs + [e];
    }
  }
}
