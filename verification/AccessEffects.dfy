/** What the compound writes do to a single row, and what every write keeps. */
module AccessEffects {
  import opened Options
  import opened EntitlementLifetimes
  import opened AccessStore
  import opened AccessPlans

  // ------------------------------------------------------------- the rows of an approval

  lemma {:induction false} InsertAllAt(db: Db, inserts: seq<(Id, Entitlement)>, requestId: Id, now: Surroundings, k: Id)
    ensures var b := InsertAll(db, inserts, requestId, now);
            && b == db.(entitlements := b.entitlements)
            && (k in db.entitlements ==> k in b.entitlements && b.entitlements[k] == db.entitlements[k])
            && (k in b.entitlements && k !in db.entitlements ==> (k, b.entitlements[k]) in inserts)
    decreases |inserts|
  {
    if inserts != [] {
      var next := InsertEntitlement(db, inserts[0].0, inserts[0].1, requestId, now);
      InsertAllAt(next, inserts[1..], requestId, now, k);
      if k in next.entitlements && k !in db.entitlements {
        assert (k, next.entitlements[k]) == inserts[0];
      }
    }
  }

  /** b's row is a's row, or a's row with the columns of one of the updates. */
  predicate UpdatedBy(a: Entitlement, b: Entitlement, k: Id, updates: seq<Update>) {
    a == b || exists u :: u in updates && u.id == k && Unended(a) && b == a.(life := u.life, hash := u.hash)
  }

  lemma {:induction false} UpdateAllAt(db: Db, updates: seq<Update>, k: Id)
    requires UpdateAll(db, updates).Some?
    ensures var b := UpdateAll(db, updates).value;
            && b == db.(entitlements := b.entitlements)
            && (k in b.entitlements <==> k in db.entitlements)
            && (k in db.entitlements ==> UpdatedBy(db.entitlements[k], b.entitlements[k], k, updates))
    decreases |updates|
  {
    if updates != [] {
      var next := UpdateEntitlement(db, updates[0]).value;
      UpdateAllAt(next, updates[1..], k);
    }
  }

  /** The columns of an update are written if it is the only one for its row. */
  lemma {:induction false} UpdateAllWrites(db: Db, updates: seq<Update>, want: Update)
    requires UpdateAll(db, updates).Some? && Updatable(db, want) && want in updates
    requires forall u :: u in updates && u.id == want.id ==> u == want
    ensures var b := UpdateAll(db, updates).value;
            want.id in b.entitlements
            && b.entitlements[want.id] == db.entitlements[want.id].(life := want.life, hash := want.hash)
    decreases |updates|
  {
    var next := UpdateEntitlement(db, updates[0]).value;
    if want in updates[1..] {
      UpdateAllWrites(next, updates[1..], want);
    } else {
      UpdateAllAt(next, updates[1..], want.id);
    }
  }

  predicate SlotsUnique(db: Db) {
    forall k, l ::
      (k in db.entitlements && l in db.entitlements && Unended(db.entitlements[k]) && Unended(db.entitlements[l])
       && SameSlot(db.entitlements[k], db.entitlements[l])) ==> k == l
  }

  lemma {:induction false} InsertAllSlots(db: Db, inserts: seq<(Id, Entitlement)>, requestId: Id, now: Surroundings)
    requires SlotsUnique(db)
    ensures SlotsUnique(InsertAll(db, inserts, requestId, now))
    decreases |inserts|
  {
    if inserts != [] {
      InsertAllSlots(InsertEntitlement(db, inserts[0].0, inserts[0].1, requestId, now), inserts[1..], requestId, now);
    }
  }

  lemma {:induction false} UpdateAllSlots(db: Db, updates: seq<Update>)
    requires SlotsUnique(db) && UpdateAll(db, updates).Some?
    ensures SlotsUnique(UpdateAll(db, updates).value)
    decreases |updates|
  {
    if updates != [] {
      UpdateAllSlots(UpdateEntitlement(db, updates[0]).value, updates[1..]);
    }
  }

  // -------------------------------------------------------------------- rows of a plan

  lemma {:induction false} PlannedInsert(
      db: Db, rows: seq<Id>, c: Context, grant: Lifetime, scopes: seq<Scope>, newIds: seq<Id>, i: (Id, Entitlement))
    requires |newIds| == |scopes| && i in PlanScopes(db, rows, c, grant, scopes, newIds).inserts
    ensures i.0 in newIds && i.1.scope in scopes && i.1 == NewEntitlement(c, i.1.scope, grant)
    ensures FindCurrent(db, rows, c, i.1.scope).None?
    decreases |scopes|
  {
    var p := PlanScope(db, rows, c, grant, scopes[0], newIds[0]);
    if i !in p.inserts { PlannedInsert(db, rows, c, grant, scopes[1..], newIds[1..], i); }
  }

  lemma {:induction false} PlannedUpdate(
      db: Db, rows: seq<Id>, c: Context, grant: Lifetime, scopes: seq<Scope>, newIds: seq<Id>, u: Update)
    requires |newIds| == |scopes| && u in PlanScopes(db, rows, c, grant, scopes, newIds).updates
    ensures u.id in rows && u.id in db.entitlements && InContext(db.entitlements[u.id], c)
    ensures db.entitlements[u.id].scope in scopes
    ensures FindCurrent(db, rows, c, db.entitlements[u.id].scope) == Some(u.id)
    ensures u in WantedUpdate(u.id, db.entitlements[u.id], grant, c.details)
    ensures u.life == Merged(db.entitlements[u.id].life, grant) && u.hash == c.details
    decreases |scopes|
  {
    var p := PlanScope(db, rows, c, grant, scopes[0], newIds[0]);
    if u !in p.updates { PlannedUpdate(db, rows, c, grant, scopes[1..], newIds[1..], u); }
  }

  /** The k-th grant is for the k-th scope: the current row, or a row to be inserted. */
  lemma {:induction false} PlannedGrant(
      db: Db, rows: seq<Id>, c: Context, grant: Lifetime, scopes: seq<Scope>, newIds: seq<Id>, k: nat)
    requires |newIds| == |scopes|
    ensures |PlanScopes(db, rows, c, grant, scopes, newIds).approved| == |scopes|
    ensures k < |scopes| ==>
              var p, current := PlanScopes(db, rows, c, grant, scopes, newIds), FindCurrent(db, rows, c, scopes[k]);
              && p.approved[k] == (scopes[k], if current.Some? then current.value else newIds[k])
              && (current.None? ==> (newIds[k], NewEntitlement(c, scopes[k], grant)) in p.inserts)
              && (current.Some? ==> var e := db.entitlements[current.value];
                    forall u :: u in WantedUpdate(current.value, e, grant, c.details) ==> u in p.updates)
    decreases |scopes|
  {
    if scopes != [] {
      PlannedGrant(db, rows, c, grant, scopes[1..], newIds[1..], if k > 0 then k - 1 else 0);
    }
  }

  // ------------------------------------------------------------------ what is never lost

  /** A row keeps its identity, and an ended row never changes again. */
  predicate RowKept(e: Entitlement, f: Entitlement) {
    && e.agent == f.agent && e.resource == f.resource && e.connection == f.connection
    && e.details == f.details && e.scope == f.scope
    && (e.ended.Some? ==> f == e)
  }

  predicate RequestKept(r: Request, s: Request) {
    && r.agent == s.agent && r.resource == s.resource && r.scopes == s.scopes
    && (r.status != Pending ==>
          && s.connection == r.connection && s.details == r.details && s.approved == r.approved
          && (s.status == r.status || (r.status == Approved && s.status == Spent)))
  }

  predicate LeaseKept(l: Lease, m: Lease) {
    l.entitlements == m.entitlements && l.request == m.request && l.expiresAt == m.expiresAt && (l.revoked ==> m.revoked)
  }

  ghost predicate Keeps(a: Db, b: Db) {
    && a.clock <= b.clock
    && (forall k :: k in a.entitlements ==> k in b.entitlements && RowKept(a.entitlements[k], b.entitlements[k]))
    && (forall r :: r in a.requests ==> r in b.requests && RequestKept(a.requests[r], b.requests[r]))
    && (forall l :: l in a.leases ==> l in b.leases && LeaseKept(a.leases[l], b.leases[l]))
  }

  lemma KeepsTransitive(a: Db, b: Db, c: Db)
    requires Keeps(a, b) && Keeps(b, c)
    ensures Keeps(a, c)
  {
  }
}
