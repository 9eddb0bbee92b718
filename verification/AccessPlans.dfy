/** What the use cases compute from the rows they have read, before the guarded write
    (server/usecases/external-resources.ts). */
module AccessPlans {
  import opened Options
  import opened EntitlementLifetimes
  import opened AccessStore

  // ------------------------------------------------------------------------ approving

  /** A controller's approval of one pending request. `connection` is the account connection the
      target check settled on, `details` the approved details, `now` the time of the call. */
  datatype Approval = Approval(
    requestId: Id, grant: Lifetime, connection: Option<Id>, details: seq<Detail>, now: Time)

  function Target(r: Request, a: Approval): Context {
    Context(r.agent, r.resource, a.connection, a.details)
  }

  /** rows is the answer of listActiveEntitlementsByAgent, in the order the query returned it. */
  predicate IsListing(db: Db, agent: Id, now: Time, rows: seq<Id>) {
    && (forall k :: k in rows ==> k in db.entitlements && db.entitlements[k].agent == agent && Active(db.entitlements[k], now))
    && (forall k :: k in db.entitlements && db.entitlements[k].agent == agent && Active(db.entitlements[k], now) ==> k in rows)
  }

  /** existing.find(...) after the filter on the context. */
  function FindCurrent(db: Db, rows: seq<Id>, c: Context, scope: Scope): (found: Option<Id>)
    ensures found.Some? ==>
              found.value in rows && found.value in db.entitlements
              && InContext(db.entitlements[found.value], c) && db.entitlements[found.value].scope == scope
    ensures found.None? ==>
              forall k :: k in rows && k in db.entitlements && InContext(db.entitlements[k], c) ==>
                            db.entitlements[k].scope != scope
  {
    if rows == [] then None
    else if rows[0] in db.entitlements && InContext(db.entitlements[rows[0]], c) && db.entitlements[rows[0]].scope == scope
    then Some(rows[0])
    else FindCurrent(db, rows[1..], c, scope)
  }

  function NewEntitlement(c: Context, scope: Scope, grant: Lifetime): Entitlement {
    Entitlement(c.agent, c.resource, c.connection, c.details, c.details, scope, grant, None)
  }

  /** The update an approval wants for a current row, if it wants one. */
  function WantedUpdate(id: Id, current: Entitlement, grant: Lifetime, details: seq<Detail>): seq<Update> {
    if Merged(current.life, grant) != current.life || current.hash != details
    then [Update(id, Merged(current.life, grant), details)] else []
  }

  datatype Plan = Plan(inserts: seq<(Id, Entitlement)>, updates: seq<Update>, approved: seq<(Scope, Id)>)

  function PlanScope(db: Db, rows: seq<Id>, c: Context, grant: Lifetime, scope: Scope, newId: Id): Plan {
    match FindCurrent(db, rows, c, scope)
    case Some(id) => Plan([], WantedUpdate(id, db.entitlements[id], grant, c.details), [(scope, id)])
    case None => Plan([(newId, NewEntitlement(c, scope, grant))], [], [(scope, newId)])
  }

  function Joined(p: Plan, q: Plan): Plan {
    Plan(p.inserts + q.inserts, p.updates + q.updates, p.approved + q.approved)
  }

  /** request.scopes.map(...) with its two side lists; newIds are the ids it would generate. */
  function PlanScopes(db: Db, rows: seq<Id>, c: Context, grant: Lifetime, scopes: seq<Scope>, newIds: seq<Id>): Plan
    requires |newIds| == |scopes|
  {
    if scopes == [] then Plan([], [], [])
    else Joined(PlanScope(db, rows, c, grant, scopes[0], newIds[0]),
                PlanScopes(db, rows, c, grant, scopes[1..], newIds[1..]))
  }

  function PlanDecision(db: Db, rows: seq<Id>, r: Request, a: Approval, newIds: seq<Id>): Decision
    requires |newIds| == |r.scopes|
  {
    var p := PlanScopes(db, rows, Target(r, a), a.grant, r.scopes, newIds);
    Decision(a.requestId, a.connection, a.details, p.inserts, p.updates, p.approved)
  }

  /** The loop that fills the three lists. */
  method BuildPlan(db: Db, rows: seq<Id>, c: Context, grant: Lifetime, scopes: seq<Scope>, newIds: seq<Id>)
    returns (inserts: seq<(Id, Entitlement)>, updates: seq<Update>, approved: seq<(Scope, Id)>)
    requires |newIds| == |scopes|
    ensures Plan(inserts, updates, approved) == PlanScopes(db, rows, c, grant, scopes, newIds)
  {
    inserts, updates, approved := [], [], [];
    for k := 0 to |scopes|
      invariant PlanScopes(db, rows, c, grant, scopes, newIds)
             == Joined(Plan(inserts, updates, approved), PlanScopes(db, rows, c, grant, scopes[k..], newIds[k..]))
    {
      ghost var before := Plan(inserts, updates, approved);
      var scope := scopes[k];
      var current := FindCurrent(db, rows, c, scope);
      if current.Some? {
        var e := db.entitlements[current.value];
        var shouldPersist := grant.mode.Persistent? && !e.life.mode.Persistent?;
        var shouldExtend :=
          grant.mode.UntilExpiry? && grant.expiresAt.Some? && !e.life.mode.Persistent?
          && (e.life.expiresAt.None? || e.life.expiresAt.value < grant.expiresAt.value);
        if shouldPersist || shouldExtend || e.hash != c.details {
          updates := updates + [Update(current.value, Merged(e.life, grant), c.details)];
        }
        approved := approved + [(scope, current.value)];
      } else {
        inserts := inserts + [(newIds[k], NewEntitlement(c, scope, grant))];
        approved := approved + [(scope, newIds[k])];
      }
      PlanStep(db, rows, c, grant, scopes, newIds, k, before, Plan(inserts, updates, approved));
    }
  }

  lemma PlanStep(db: Db, rows: seq<Id>, c: Context, grant: Lifetime, scopes: seq<Scope>, newIds: seq<Id>,
                 k: nat, before: Plan, after: Plan)
    requires |newIds| == |scopes| && k < |scopes|
    requires after == Joined(before, PlanScope(db, rows, c, grant, scopes[k], newIds[k]))
    ensures Joined(before, PlanScopes(db, rows, c, grant, scopes[k..], newIds[k..]))
         == Joined(after, PlanScopes(db, rows, c, grant, scopes[k + 1..], newIds[k + 1..]))
  {
    assert scopes[k..][1..] == scopes[k + 1..] && newIds[k..][1..] == newIds[k + 1..];
    var one, rest := PlanScope(db, rows, c, grant, scopes[k], newIds[k]),
                     PlanScopes(db, rows, c, grant, scopes[k + 1..], newIds[k + 1..]);
    JoinedAssociates(before, one, rest);
  }

  lemma JoinedAssociates(p: Plan, q: Plan, r: Plan)
    ensures Joined(p, Joined(q, r)) == Joined(Joined(p, q), r)
  {
    assert p.inserts + (q.inserts + r.inserts) == p.inserts + q.inserts + r.inserts;
    assert p.updates + (q.updates + r.updates) == p.updates + q.updates + r.updates;
    assert p.approved + (q.approved + r.approved) == p.approved + q.approved + r.approved;
  }

  // -------------------------------------------------------------------------- issuing

  /** The rows a token is issued for: activeContextEntitlements. Sorting them does not matter here. */
  predicate IsSelection(db: Db, c: Context, now: Time, rows: seq<Id>) {
    && (forall k :: k in rows ==> k in db.entitlements && InContext(db.entitlements[k], c) && Active(db.entitlements[k], now))
    && (forall k :: k in db.entitlements && InContext(db.entitlements[k], c) && Active(db.entitlements[k], now) ==> k in rows)
  }

  /** earliestEntitlementExpiry. */
  function EarliestExpiry(db: Db, rows: seq<Id>): Option<Time>
    requires forall k :: k in rows ==> k in db.entitlements
  {
    if rows == [] then None
    else
      var x, rest := db.entitlements[rows[0]].life.expiresAt, EarliestExpiry(db, rows[1..]);
      if x.None? then rest else if rest.None? || x.value <= rest.value then x else rest
  }

  lemma {:induction false} EarliestExpiryBounds(db: Db, rows: seq<Id>, t: Time)
    requires forall k :: k in rows ==> k in db.entitlements
    ensures (EarliestExpiry(db, rows).Some? ==> t <= EarliestExpiry(db, rows).value)
       <==> forall k :: k in rows && db.entitlements[k].life.expiresAt.Some? ==> t <= db.entitlements[k].life.expiresAt.value
  {
    if rows != [] {
      EarliestExpiryBounds(db, rows[1..], t);
      assert forall k :: k in rows <==> k == rows[0] || k in rows[1..];
    }
  }

  const FIVE_MINUTES: Time := 300000
  const LONGEST_EXTERNAL: Time := 3600

  /** The expiry of an external lease: None when the answer of the token endpoint is refused. */
  function ExternalExpiry(earliest: Option<Time>, now: Time, expiresIn: Time): Option<Time> {
    var expiresAt := now + expiresIn * 1000;
    if expiresIn <= 0 || expiresIn > LONGEST_EXTERNAL || (earliest.Some? && expiresAt > earliest.value) then None
    else Some(expiresAt)
  }

  function NativeExpiry(earliest: Option<Time>, now: Time): Time {
    if earliest.Some? && earliest.value < now + FIVE_MINUTES then earliest.value else now + FIVE_MINUTES
  }

  function OnceIds(db: Db, rows: seq<Id>): seq<Id>
    requires forall k :: k in rows ==> k in db.entitlements
  {
    if rows == [] then []
    else (if db.entitlements[rows[0]].life.mode.Once? then [rows[0]] else []) + OnceIds(db, rows[1..])
  }

  lemma {:induction false} OnceIdsAre(db: Db, rows: seq<Id>, k: Id)
    requires forall k :: k in rows ==> k in db.entitlements
    ensures k in OnceIds(db, rows) <==> k in rows && db.entitlements[k].life.mode.Once?
  {
    if rows != [] {
      OnceIdsAre(db, rows[1..], k);
      assert k in rows <==> k == rows[0] || k in rows[1..];
    }
  }

  function ScopesOf(db: Db, rows: seq<Id>): seq<Scope>
    requires forall k :: k in rows ==> k in db.entitlements
  {
    seq(|rows|, i requires 0 <= i < |rows| => db.entitlements[rows[i]].scope)
  }

  /** The context a stored request asks tokens for. */
  function ContextOf(r: Request): Context {
    Context(r.agent, r.resource, r.connection, r.details)
  }
}
