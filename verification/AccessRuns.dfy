/** Runs of the Agent access use cases. A use case reads the rows at one state of the history and
    commits its write at a later one; between the two, other calls may commit anything. */
module AccessRuns {
  import opened Options
  import opened EntitlementLifetimes
  import opened AccessStore
  import opened AccessPlans
  import opened AccessEffects
  import opened Runs
  import opened Sequences

  type History = h: seq<Db> | h != [] witness [Db(map[], map[], map[], 0)]

  const EMPTY := Db(map[], map[], map[], 0)

  /** `read` is the state in which the use case made its queries. */
  datatype Event =
    | Tick(time: Time)
    | Ask(read: nat, id: Id, c: Context, scopes: seq<Scope>, now: Time, rows: seq<Id>, expiresAt: Time, s: Surroundings)
    | Approving(read: nat, a: Approval, rows: seq<Id>, newIds: seq<Id>, s: Surroundings)
    | Denying(id: Id)
    | Issue(read: nat, request: Id, rows: seq<Id>, now: Time, created: Time, expiresAt: Time, lease: Id, s: Surroundings)
    | Revoke(read: nat, id: Id, now: Time)
    | RevokeLease(lease: Id, now: Time)

  function Last(h: History): Db {
    h[|h| - 1]
  }

  /** createAgentAccessRequest: already approved when every scope has an active entitlement among
      the reusable ones, which the account check may have thinned out. */
  function NewRequest(read: Db, e: Event): Request
    requires e.Ask?
  {
    var p := PlanScopes(read, e.rows, e.c, Lifetime(Once, None), e.scopes, e.scopes);
    var reused := p.inserts == [];
    Request(e.c.agent, e.c.resource, e.c.connection, e.scopes, e.c.details,
            if reused then Approved else Pending, if reused then p.approved else [], e.expiresAt)
  }

  /** The checks a use case makes on what it has read, and the clock. */
  ghost predicate Possible(h: History, e: Event) {
    var last := Last(h);
    match e
    case Tick(time) => last.clock <= time
    case Ask(read, id, c, scopes, now, rows, _, _) =>
      && read < |h| && id !in last.requests && scopes != [] && Distinct(scopes)
      && forall k :: k in rows ==> k in h[read].entitlements && h[read].entitlements[k].agent == c.agent
    case Approving(read, a, rows, newIds, _) =>
      && read < |h| && a.requestId in h[read].requests && a.now <= last.clock
      && var r := h[read].requests[a.requestId];
      && r.status == Pending && a.now < r.expiresAt
      && Valid(a.grant) && (a.grant.expiresAt.Some? ==> a.now < a.grant.expiresAt.value)
      && IsListing(h[read], r.agent, a.now, rows)
      && |newIds| == |r.scopes| && Distinct(newIds) && forall n :: n in newIds ==> n !in last.entitlements
    case Denying(id) => id in last.requests
    case Issue(read, request, rows, now, created, expiresAt, lease, _) =>
      && read < |h| && request in h[read].requests && lease !in last.leases && now <= created <= last.clock
      && var r := h[read].requests[request];
      && (r.status == Approved || r.status == Spent)
      && IsSelection(h[read], ContextOf(r), now, rows) && rows != []
      && var earliest := EarliestExpiry(h[read], rows);
      || (r.connection.Some? && now == created && exists seconds :: ExternalExpiry(earliest, now, seconds) == Some(expiresAt))
      || (r.connection.None? && expiresAt == NativeExpiry(earliest, created))
    case Revoke(read, id, now) =>
      read < |h| && now <= last.clock && id in h[read].entitlements && Unended(h[read].entitlements[id])
    case RevokeLease(lease, now) => lease in last.leases && now <= last.clock
  }

  function ApprovingDecision(h: History, e: Event): Decision
    requires e.Approving? && e.read < |h| && e.a.requestId in h[e.read].requests
    requires |e.newIds| == |h[e.read].requests[e.a.requestId].scopes|
  {
    PlanDecision(h[e.read], e.rows, h[e.read].requests[e.a.requestId], e.a, e.newIds)
  }

  function IssuedLease(e: Event): Lease
    requires e.Issue?
  {
    Lease(e.rows, e.request, e.expiresAt, false)
  }

  /** The state after the event's write. */
  ghost function After(h: History, e: Event): Db
    requires Possible(h, e)
  {
    var last := Last(h);
    match e
    case Tick(time) => last.(clock := time)
    case Ask(read, id, _, _, _, _, _, s) => InsertRequest(last, id, NewRequest(h[read], e), s)
    case Approving(_, _, _, _, s) =>
      (match Approve(last, ApprovingDecision(h, e), s) case None => last case Some(next) => next)
    case Denying(id) => Deny(last, id)
    case Issue(read, request, rows, _, created, _, lease, s) =>
      IssueLease(last, lease, IssuedLease(e), ContextOf(h[read].requests[request]), ScopesOf(h[read], rows),
                 OnceIds(h[read], rows), created, s)
    case Revoke(read, id, now) => EndEntitlement(last, id, LiveLeases(h[read], id, now))
    case RevokeLease(lease, now) =>
      if now < last.leases[lease].expiresAt then last.(leases := RevokeLeases(last, {lease})) else last
  }

  ghost function Steps(): (seq<Db>, Event, Db) -> bool {
    (h: seq<Db>, e: Event, next: Db) => h != [] && Possible(h, e) && next == After(h, e)
  }

  /** h is what the calls es made of the empty store, one state per call. */
  ghost predicate IsRun(h: History, es: seq<Event>) {
    RunOf(h, es, EMPTY, Steps())
  }

  // ------------------------------------------------------------ what holds in every run

  predicate GrantFits(db: Db, r: Request, k: nat)
    requires k < |r.approved| && k < |r.scopes|
  {
    var id := r.approved[k].1;
    && r.approved[k].0 == r.scopes[k] && id in db.entitlements
    && InContext(db.entitlements[id], ContextOf(r)) && db.entitlements[id].scope == r.scopes[k]
  }

  /** An approved request has exactly one entitlement for each of its scopes, in its context. */
  predicate RequestSound(db: Db, r: Request) {
    && r.scopes != [] && Distinct(r.scopes)
    && (r.status == Approved || r.status == Spent ==>
          |r.approved| == |r.scopes| && forall k :: 0 <= k < |r.scopes| ==> GrantFits(db, r, k))
  }

  predicate RowSound(e: Entitlement) {
    Valid(e.life) && Exact(e.hash, e.details)
  }

  predicate SuppliedFits(db: Db, r: Request, id: Id) {
    id in db.entitlements && InContext(db.entitlements[id], ContextOf(r))
  }

  /** A lease belongs to a decided request and names entitlements of that request's context only. */
  predicate LeaseSound(db: Db, l: Lease) {
    && l.request in db.requests
    && var r := db.requests[l.request];
    && (r.status == Approved || r.status == Spent) && l.entitlements != []
    && forall id :: id in l.entitlements ==> SuppliedFits(db, r, id)
  }

  ghost predicate Sound(db: Db) {
    && SlotsUnique(db)
    && (forall k :: k in db.entitlements ==> RowSound(db.entitlements[k]))
    && (forall r :: r in db.requests ==> RequestSound(db, db.requests[r]))
    && (forall l :: l in db.leases ==> LeaseSound(db, db.leases[l]))
  }

  lemma RequestStaysSound(a: Db, b: Db, r: Request)
    requires Keeps(a, b) && RequestSound(a, r)
    ensures RequestSound(b, r)
  {
    if r.status == Approved || r.status == Spent {
      forall k | 0 <= k < |r.scopes| ensures GrantFits(b, r, k) { assert GrantFits(a, r, k); }
    }
  }

  lemma LeaseStaysSound(a: Db, b: Db, l: Lease)
    requires Keeps(a, b) && LeaseSound(a, l)
    ensures LeaseSound(b, l)
  {
    forall id | id in l.entitlements ensures SuppliedFits(b, b.requests[l.request], id) {
      assert SuppliedFits(a, a.requests[l.request], id);
    }
  }
}
