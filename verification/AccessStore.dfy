/** The rows behind Agent access, and the guarded writes of the repository
    (server/adapters/repos/external-resources.ts). Every write is one transaction. */
module AccessStore {
  import opened Options
  import opened EntitlementLifetimes

  // Identifiers and scopes are only ever compared.
  type Id = nat
  type Scope = nat
  /** The canonical text of one authorization detail. */
  type Detail = nat

  datatype EndReason = Revoked | Consumed

  /** hash is authorizationContextHash: a digest of the detail list in the order it was given, so
      it is represented by that list. */
  datatype Entitlement = Entitlement(
    agent: Id, resource: Id, connection: Option<Id>, details: seq<Detail>, hash: seq<Detail>, scope: Scope,
    life: Lifetime, ended: Option<EndReason>)

  datatype Status = Pending | Approved | Denied | Spent

  datatype Request = Request(
    agent: Id, resource: Id, connection: Option<Id>, scopes: seq<Scope>, details: seq<Detail>,
    status: Status, approved: seq<(Scope, Id)>, expiresAt: Time)

  datatype Lease = Lease(entitlements: seq<Id>, request: Id, expiresAt: Time, revoked: bool)

  datatype Db = Db(
    entitlements: map<Id, Entitlement>, requests: map<Id, Request>, leases: map<Id, Lease>, clock: Time)

  predicate Unended(e: Entitlement) {
    e.ended.None?
  }

  /** The rows of listActiveEntitlementsByAgent. */
  predicate Active(e: Entitlement, now: Time) {
    Unended(e) && (e.life.expiresAt.Some? ==> now < e.life.expiresAt.value)
  }

  /** exactAuthorizationDetails, by AuthorizationDetails.ExactIffSameMultiset. */
  predicate Exact(a: seq<Detail>, b: seq<Detail>) {
    multiset(a) == multiset(b)
  }

  datatype Context = Context(agent: Id, resource: Id, connection: Option<Id>, details: seq<Detail>)

  predicate InContext(e: Entitlement, c: Context) {
    e.agent == c.agent && e.resource == c.resource && e.connection == c.connection && Exact(e.details, c.details)
  }

  /** The columns of the unique index over active agent entitlements. */
  predicate SameSlot(e: Entitlement, f: Entitlement) {
    && e.agent == f.agent && e.resource == f.resource && e.connection == f.connection
    && e.hash == f.hash && e.scope == f.scope
  }

  predicate Taken(db: Db, e: Entitlement, except: set<Id>) {
    exists k :: k in db.entitlements && k !in except && Unended(db.entitlements[k]) && SameSlot(db.entitlements[k], e)
  }

  /** What a guard finds outside these rows: the resource enabled, the connection active. */
  datatype Surroundings = Surroundings(resourceEnabled: bool, connectionActive: bool)

  // ------------------------------------------------------------------------ approval

  /** insertEntitlement: skipped when the request is no longer pending or the slot is taken. */
  function InsertEntitlement(db: Db, id: Id, e: Entitlement, requestId: Id, now: Surroundings): Db {
    if id !in db.entitlements && requestId in db.requests && db.requests[requestId].status.Pending?
       && db.requests[requestId].resource == e.resource && db.requests[requestId].agent == e.agent
       && now.resourceEnabled && (e.connection.Some? ==> now.connectionActive) && !Taken(db, e, {})
    then db.(entitlements := db.entitlements[id := e])
    else db
  }

  datatype Update = Update(id: Id, life: Lifetime, hash: seq<Detail>)

  predicate Updatable(db: Db, u: Update) {
    u.id in db.entitlements && Unended(db.entitlements[u.id])
  }

  /** None: the write violates the unique index and the whole transaction is rolled back. */
  function UpdateEntitlement(db: Db, u: Update): Option<Db> {
    if !Updatable(db, u) then Some(db)
    else
      var e := db.entitlements[u.id].(life := u.life, hash := u.hash);
      if Taken(db, e, {u.id}) then None else Some(db.(entitlements := db.entitlements[u.id := e]))
  }

  function InsertAll(db: Db, inserts: seq<(Id, Entitlement)>, requestId: Id, now: Surroundings): Db
    decreases |inserts|
  {
    if inserts == [] then db
    else InsertAll(InsertEntitlement(db, inserts[0].0, inserts[0].1, requestId, now), inserts[1..], requestId, now)
  }

  function UpdateAll(db: Db, updates: seq<Update>): Option<Db>
    decreases |updates|
  {
    if updates == [] then Some(db)
    else match UpdateEntitlement(db, updates[0]) case None => None case Some(next) => UpdateAll(next, updates[1..])
  }

  /** A decision as the use case hands it to the repository. */
  datatype Decision = Decision(
    requestId: Id, connection: Option<Id>, details: seq<Detail>,
    inserts: seq<(Id, Entitlement)>, updates: seq<Update>, approved: seq<(Scope, Id)>)

  predicate GrantHolds(db: Db, r: Request, connection: Option<Id>, grant: (Scope, Id)) {
    grant.1 in db.entitlements &&
    var e := db.entitlements[grant.1];
    e.agent == r.agent && e.resource == r.resource && e.connection == connection && e.scope == grant.0 && Unended(e)
  }

  /** The guard of updateAccessRequestDecision. */
  predicate Decidable(db: Db, d: Decision, now: Surroundings) {
    d.requestId in db.requests &&
    var r := db.requests[d.requestId];
    && r.status.Pending? && now.resourceEnabled && |d.approved| == |r.scopes|
    && forall g :: g in d.approved ==> GrantHolds(db, r, d.connection, g)
  }

  function MarkApproved(db: Db, d: Decision, now: Surroundings): Db {
    if !Decidable(db, d, now) then db
    else
      var r := db.requests[d.requestId].(
        status := Approved, approved := d.approved, connection := d.connection, details := d.details);
      db.(requests := db.requests[d.requestId := r])
  }

  /** approveAccessRequestWithEntitlements; None when the transaction is rolled back. */
  function Approve(db: Db, d: Decision, now: Surroundings): Option<Db> {
    match UpdateAll(InsertAll(db, d.inserts, d.requestId, now), d.updates)
    case None => None
    case Some(next) => Some(MarkApproved(next, d, now))
  }

  datatype Outcome = Granted | EntitlementsChanged | ResourceUnavailable | RequestChanged

  predicate AllInserted(db: Db, inserts: seq<(Id, Entitlement)>) {
    forall i :: i in inserts ==> i.0 in db.entitlements
  }

  predicate AllUpdatable(db: Db, updates: seq<Update>) {
    forall u :: u in updates ==> Updatable(db, u)
  }

  /** What the repository reports, in the order it looks at the statements' results. */
  function ApprovalOutcome(db: Db, d: Decision, now: Surroundings): Outcome
    requires Approve(db, d, now).Some?
  {
    var inserted := InsertAll(db, d.inserts, d.requestId, now);
    if !AllInserted(inserted, d.inserts) then EntitlementsChanged
    else if !AllUpdatable(inserted, d.updates) then ResourceUnavailable
    else if !Decidable(UpdateAll(inserted, d.updates).value, d, now) then RequestChanged
    else Granted
  }

  // ---------------------------------------------------------------- requests and denial

  function InsertRequest(db: Db, id: Id, r: Request, now: Surroundings): Db {
    if id in db.requests || !now.resourceEnabled then db else db.(requests := db.requests[id := r])
  }

  function Deny(db: Db, id: Id): Db {
    if id in db.requests && db.requests[id].status.Pending?
    then db.(requests := db.requests[id := db.requests[id].(status := Denied, approved := [])])
    else db
  }

  // --------------------------------------------------------------------------- leases

  predicate SuppliedHolds(db: Db, c: Context, scopes: seq<Scope>, created: Time, id: Id) {
    id in db.entitlements &&
    var e := db.entitlements[id];
    && e.agent == c.agent && e.resource == c.resource && e.connection == c.connection && e.hash == c.details
    && Active(e, created) && e.scope in scopes
  }

  /** The guard of insertTokenLease: the boundary c and its scopes, as read, still hold. */
  predicate Leasable(db: Db, l: Lease, c: Context, scopes: seq<Scope>, created: Time, now: Surroundings) {
    l.request in db.requests &&
    var r := db.requests[l.request];
    && (r.status.Approved? || r.status.Spent?)
    && r.agent == c.agent && r.resource == c.resource && r.connection == c.connection
    && |l.entitlements| == |scopes|
    && (forall id :: id in l.entitlements ==> SuppliedHolds(db, c, scopes, created, id))
    && (forall s :: s in scopes ==>
          exists id :: id in l.entitlements && id in db.entitlements && db.entitlements[id].scope == s)
    && now.resourceEnabled && (r.connection.Some? ==> now.connectionActive)
  }

  function Consume(db: Db, ids: seq<Id>): map<Id, Entitlement> {
    map k | k in db.entitlements ::
      if k in ids && Unended(db.entitlements[k]) then db.entitlements[k].(ended := Some(Consumed))
      else db.entitlements[k]
  }

  /** issueTokenLeaseWithAudit. */
  function IssueLease(
      db: Db, id: Id, l: Lease, c: Context, scopes: seq<Scope>, consume: seq<Id>, created: Time, now: Surroundings): Db
  {
    if id in db.leases || !Leasable(db, l, c, scopes, created, now) then db
    else
      var r := db.requests[l.request];
      db.(entitlements := Consume(db, consume),
          requests := db.requests[l.request := if r.status.Approved? then r.(status := Spent) else r],
          leases := db.leases[id := l])
  }

  // ----------------------------------------------------------------------- revocation

  /** listActiveTokenLeasesByEntitlement. */
  function LiveLeases(db: Db, entitlement: Id, now: Time): set<Id> {
    set l | l in db.leases && entitlement in db.leases[l].entitlements && now < db.leases[l].expiresAt
            && !db.leases[l].revoked
  }

  function RevokeLeases(db: Db, ids: set<Id>): map<Id, Lease> {
    map l | l in db.leases :: if l in ids then db.leases[l].(revoked := true) else db.leases[l]
  }

  /** endEntitlementWithAudit with the leases that were listed before. */
  function EndEntitlement(db: Db, id: Id, leases: set<Id>): Db {
    db.(entitlements :=
          if id in db.entitlements && Unended(db.entitlements[id])
          then db.entitlements[id := db.entitlements[id].(ended := Some(Revoked))]
          else db.entitlements,
        leases := RevokeLeases(db, leases))
  }
}
