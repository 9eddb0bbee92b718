/** Which statements of an approval take effect, exactly, whatever was committed since the use case read. */
module AccessOutcomes {
  import opened Options
  import opened EntitlementLifetimes
  import opened AccessStore
  import opened AccessPlans
  import opened AccessEffects
  import opened AccessRuns
  import opened Sequences
  import opened AccessSoundness

  predicate ScopesDiffer(inserts: seq<(Id, Entitlement)>) {
    forall i, j :: 0 <= i < j < |inserts| ==> inserts[i].1.scope != inserts[j].1.scope && inserts[i].0 != inserts[j].0
  }

  predicate Insertable(db: Db, i: (Id, Entitlement), requestId: Id, s: Surroundings) {
    && i.0 !in db.entitlements && !Taken(db, i.1, {}) && requestId in db.requests
    && db.requests[requestId].status.Pending?
    && db.requests[requestId].resource == i.1.resource && db.requests[requestId].agent == i.1.agent
    && s.resourceEnabled && (i.1.connection.Some? ==> s.connectionActive)
  }

  /** The guards of inserts for different scopes do not meet: each row is inserted exactly when its own
      guard held before the first insert. */
  lemma {:induction false} InsertedIff(
      db: Db, inserts: seq<(Id, Entitlement)>, requestId: Id, s: Surroundings, i: (Id, Entitlement))
    requires ScopesDiffer(inserts) && i in inserts && i.0 !in db.entitlements
    ensures var b := InsertAll(db, inserts, requestId, s);
            && (i.0 in b.entitlements <==> Insertable(db, i, requestId, s))
            && (i.0 in b.entitlements ==> b.entitlements[i.0] == i.1)
    decreases |inserts|
  {
    var head, rest := inserts[0], inserts[1..];
    var next := InsertEntitlement(db, head.0, head.1, requestId, s);
    assert forall j :: j in rest ==> j.0 != head.0 && j.1.scope != head.1.scope;
    if i == head {
      InsertAllAt(next, rest, requestId, s, i.0);
    } else {
      assert i in rest;
      InsertableAfter(db, head, requestId, s, i);
      InsertedIff(next, rest, requestId, s, i);
    }
  }

  /** Inserting a row of another scope takes no slot from i. */
  lemma InsertableAfter(db: Db, head: (Id, Entitlement), requestId: Id, s: Surroundings, i: (Id, Entitlement))
    requires i.0 != head.0 && i.1.scope != head.1.scope
    ensures var next := InsertEntitlement(db, head.0, head.1, requestId, s);
            Insertable(next, i, requestId, s) <==> Insertable(db, i, requestId, s)
  {
    var next := InsertEntitlement(db, head.0, head.1, requestId, s);
    if next != db {
      forall k | k in db.entitlements ensures k in next.entitlements && next.entitlements[k] == db.entitlements[k] {}
      assert Taken(next, i.1, {}) <==> Taken(db, i.1, {});
    }
  }

  predicate UpdatesDiffer(db: Db, updates: seq<Update>) {
    forall i, j :: 0 <= i < j < |updates| && updates[i].id in db.entitlements && updates[j].id in db.entitlements ==>
      db.entitlements[updates[i].id].scope != db.entitlements[updates[j].id].scope
  }

  predicate Clear(db: Db, u: Update) {
    u.id in db.entitlements ==> !Taken(db, db.entitlements[u.id].(life := u.life, hash := u.hash), {u.id})
  }

  /** The update would violate the unique index. */
  predicate Collides(db: Db, u: Update) {
    Updatable(db, u) && !Clear(db, u)
  }

  /** The transaction is rolled back exactly when one of the updates collides with a row as it is before
      the first update. */
  lemma {:induction false} UpdateAllIff(db: Db, updates: seq<Update>)
    requires UpdatesDiffer(db, updates)
    ensures UpdateAll(db, updates).None? <==> exists u :: u in updates && Collides(db, u)
    decreases |updates|
  {
    if updates != [] {
      var head, rest := updates[0], updates[1..];
      assert forall u :: u in updates <==> u == head || u in rest;
      if !Collides(db, head) {
        var next := UpdateEntitlement(db, head).value;
        assert forall k :: k in next.entitlements <==> k in db.entitlements;
        assert forall k :: k in db.entitlements ==> next.entitlements[k].scope == db.entitlements[k].scope;
        forall u | u in rest ensures Collides(next, u) <==> Collides(db, u) { CollidesAfter(db, updates, u, next); }
        assert UpdatesDiffer(next, rest) by {
          forall i, j | 0 <= i < j < |rest| && rest[i].id in next.entitlements && rest[j].id in next.entitlements
            ensures next.entitlements[rest[i].id].scope != next.entitlements[rest[j].id].scope
          {
            assert rest[i] == updates[i + 1] && rest[j] == updates[j + 1];
          }
        }
        UpdateAllIff(next, rest);
      }
    }
  }

  /** Updating a row of another scope takes no slot from u and frees none. */
  lemma CollidesAfter(db: Db, updates: seq<Update>, u: Update, next: Db)
    requires updates != [] && UpdatesDiffer(db, updates) && u in updates[1..]
    requires UpdateEntitlement(db, updates[0]) == Some(next)
    ensures Collides(next, u) <==> Collides(db, u)
  {
    var n :| 0 <= n < |updates| - 1 && updates[1..][n] == u;
    assert updates[n + 1] == u;
    if Updatable(db, u) && Updatable(db, updates[0]) {
      var e := db.entitlements[u.id].(life := u.life, hash := u.hash);
      assert next.entitlements[u.id] == db.entitlements[u.id];
      forall k | k in db.entitlements
        ensures (Unended(next.entitlements[k]) && SameSlot(next.entitlements[k], e))
           <==> (Unended(db.entitlements[k]) && SameSlot(db.entitlements[k], e))
      {
      }
      assert Taken(next, e, {u.id}) <==> Taken(db, e, {u.id});
    }
  }

  lemma {:induction false} PlannedRowsDiffer(
      db: Db, rows: seq<Id>, c: Context, grant: Lifetime, scopes: seq<Scope>, newIds: seq<Id>)
    requires |newIds| == |scopes| && Distinct(scopes) && Distinct(newIds)
    ensures var p := PlanScopes(db, rows, c, grant, scopes, newIds); ScopesDiffer(p.inserts) && UpdatesDiffer(db, p.updates)
    decreases |scopes|
  {
    if scopes != [] {
      var p, q := PlanScope(db, rows, c, grant, scopes[0], newIds[0]),
                  PlanScopes(db, rows, c, grant, scopes[1..], newIds[1..]);
      assert Distinct(scopes[1..]) && Distinct(newIds[1..]) && scopes[0] !in scopes[1..] && newIds[0] !in newIds[1..];
      PlannedRowsDiffer(db, rows, c, grant, scopes[1..], newIds[1..]);
      forall i | i in q.inserts ensures i.1.scope != scopes[0] && i.0 != newIds[0] {
        PlannedInsert(db, rows, c, grant, scopes[1..], newIds[1..], i);
      }
      forall u | u in q.updates ensures u.id in db.entitlements && db.entitlements[u.id].scope != scopes[0] {
        PlannedUpdate(db, rows, c, grant, scopes[1..], newIds[1..], u);
      }
      DifferCons(db, p, q);
    }
  }

  lemma DifferCons(db: Db, p: Plan, q: Plan)
    requires |p.inserts| <= 1 && |p.updates| <= 1 && ScopesDiffer(q.inserts) && UpdatesDiffer(db, q.updates)
    requires forall i, j :: i in p.inserts && j in q.inserts ==> i.1.scope != j.1.scope && i.0 != j.0
    requires forall u, v :: u in p.updates && v in q.updates && u.id in db.entitlements && v.id in db.entitlements ==>
               db.entitlements[u.id].scope != db.entitlements[v.id].scope
    ensures ScopesDiffer(Joined(p, q).inserts) && UpdatesDiffer(db, Joined(p, q).updates)
  {
  }

  lemma SameScopeSameInsert(inserts: seq<(Id, Entitlement)>, i: (Id, Entitlement), j: (Id, Entitlement))
    requires ScopesDiffer(inserts) && i in inserts && j in inserts && i.1.scope == j.1.scope
    ensures i == j
  {
    var m, n :| 0 <= m < |inserts| && 0 <= n < |inserts| && inserts[m] == i && inserts[n] == j;
  }

  function ApprovalContext(h: History, e: Event): Context
    requires e.Approving? && e.read < |h| && e.a.requestId in h[e.read].requests
  {
    Target(h[e.read].requests[e.a.requestId], e.a)
  }

  function ApprovalScopes(h: History, e: Event): seq<Scope>
    requires e.Approving? && e.read < |h| && e.a.requestId in h[e.read].requests
  {
    h[e.read].requests[e.a.requestId].scopes
  }

  // --------------------------------------------------------------- one approval's effects

  /** An approval whose reads are behind the state it writes to. */
  ghost predicate Behind(h: History, e: Event) {
    e.Approving? && Possible(h, e) && Keeps(h[e.read], Last(h)) && Sound(h[e.read]) && Sound(Last(h))
  }

  lemma GoodIsBehind(h: History, e: Event)
    requires e.Approving? && Possible(h, e) && GoodHistory(h)
    ensures Behind(h, e)
  {
  }

  lemma RowsDiffer(h: History, e: Event)
    requires Behind(h, e)
    ensures ScopesDiffer(ApprovingDecision(h, e).inserts) && UpdatesDiffer(h[e.read], ApprovingDecision(h, e).updates)
  {
    var read := h[e.read];
    assert RequestSound(read, read.requests[e.a.requestId]);
    PlannedRowsDiffer(read, e.rows, ApprovalContext(h, e), e.a.grant, ApprovalScopes(h, e), e.newIds);
  }

  lemma InsertTakesEffectIff(h: History, e: Event, i: (Id, Entitlement))
    requires Behind(h, e) && i in ApprovingDecision(h, e).inserts
    ensures var d := ApprovingDecision(h, e);
            var mid := InsertAll(Last(h), d.inserts, d.requestId, e.s);
            && i.0 !in Last(h).entitlements
            && (i.0 in mid.entitlements <==> Insertable(Last(h), i, d.requestId, e.s))
            && (i.0 in mid.entitlements ==> mid.entitlements[i.0] == i.1)
  {
    var d := ApprovingDecision(h, e);
    RowsDiffer(h, e);
    PlannedInsert(h[e.read], e.rows, ApprovalContext(h, e), e.a.grant, ApprovalScopes(h, e), e.newIds, i);
    assert i.0 in e.newIds;
    InsertedIff(Last(h), d.inserts, d.requestId, e.s, i);
  }

  /** The row an update is for is stored, and the inserts before the update leave it alone. */
  lemma UpdatedRowIsOld(h: History, e: Event, u: Update)
    requires Behind(h, e) && u in ApprovingDecision(h, e).updates
    ensures var d := ApprovingDecision(h, e);
            var mid := InsertAll(Last(h), d.inserts, d.requestId, e.s);
            && u.id in h[e.read].entitlements && u.id in Last(h).entitlements && u.id in mid.entitlements
            && mid.entitlements[u.id] == Last(h).entitlements[u.id]
            && RowKept(h[e.read].entitlements[u.id], Last(h).entitlements[u.id])
            && InContext(Last(h).entitlements[u.id], ApprovalContext(h, e))
  {
    var a, d := Last(h), ApprovingDecision(h, e);
    PlannedUpdate(h[e.read], e.rows, ApprovalContext(h, e), e.a.grant, ApprovalScopes(h, e), e.newIds, u);
    InsertAllAt(a, d.inserts, d.requestId, e.s, u.id);
  }

  lemma NewRowElsewhere(h: History, e: Event, u: Update, k: Id)
    requires Behind(h, e) && u in ApprovingDecision(h, e).updates && u.id in Last(h).entitlements
    requires var d := ApprovingDecision(h, e);
             var mid := InsertAll(Last(h), d.inserts, d.requestId, e.s);
             k in mid.entitlements && mid.entitlements[k].scope == Last(h).entitlements[u.id].scope
    ensures k in Last(h).entitlements
  {
    var a, d, c, scopes := Last(h), ApprovingDecision(h, e), ApprovalContext(h, e), ApprovalScopes(h, e);
    var mid := InsertAll(a, d.inserts, d.requestId, e.s);
    UpdatedRowIsOld(h, e, u);
    PlannedUpdate(h[e.read], e.rows, c, e.a.grant, scopes, e.newIds, u);
    InsertAllAt(a, d.inserts, d.requestId, e.s, k);
    if k !in a.entitlements { PlannedInsert(h[e.read], e.rows, c, e.a.grant, scopes, e.newIds, (k, mid.entitlements[k])); }
  }

  /** No insert is for the scope of an update. */
  lemma CollidesIff(h: History, e: Event, u: Update)
    requires Behind(h, e) && u in ApprovingDecision(h, e).updates
    ensures var d := ApprovingDecision(h, e);
            Collides(InsertAll(Last(h), d.inserts, d.requestId, e.s), u) <==> Collides(Last(h), u)
  {
    var a, d := Last(h), ApprovingDecision(h, e);
    var mid := InsertAll(a, d.inserts, d.requestId, e.s);
    UpdatedRowIsOld(h, e, u);
    var f := a.entitlements[u.id].(life := u.life, hash := u.hash);
    forall k | k in mid.entitlements && SameSlot(mid.entitlements[k], f) ensures k in a.entitlements {
      NewRowElsewhere(h, e, u, k);
    }
    forall k | k in a.entitlements ensures k in mid.entitlements && mid.entitlements[k] == a.entitlements[k] {
      InsertAllAt(a, d.inserts, d.requestId, e.s, k);
    }
    assert Taken(mid, f, {u.id}) <==> Taken(a, f, {u.id});
  }

  ghost predicate RolledBack(h: History, e: Event)
    requires Behind(h, e)
  {
    exists u :: u in ApprovingDecision(h, e).updates && Collides(Last(h), u)
  }

  lemma RolledBackIff(h: History, e: Event)
    requires Behind(h, e)
    ensures Approve(Last(h), ApprovingDecision(h, e), e.s).None? <==> RolledBack(h, e)
  {
    var d, read := ApprovingDecision(h, e), h[e.read];
    var mid := InsertAll(Last(h), d.inserts, d.requestId, e.s);
    RowsDiffer(h, e);
    forall u | u in d.updates ensures Collides(mid, u) <==> Collides(Last(h), u) { CollidesIff(h, e, u); }
    forall i, j | 0 <= i < j < |d.updates| && d.updates[i].id in mid.entitlements && d.updates[j].id in mid.entitlements
      ensures mid.entitlements[d.updates[i].id].scope != mid.entitlements[d.updates[j].id].scope
    {
      UpdatedRowIsOld(h, e, d.updates[i]);
      UpdatedRowIsOld(h, e, d.updates[j]);
    }
    UpdateAllIff(mid, d.updates);
  }

  // ------------------------------------------------------------------- the rows it leaves

  /** The row an approval settles on for its n-th scope: the one it found, or the one it would insert. */
  function OwnRow(h: History, e: Event, n: nat): Id
    requires e.Approving? && e.read < |h| && e.a.requestId in h[e.read].requests
    requires n < |ApprovalScopes(h, e)| == |e.newIds|
  {
    var found := FindCurrent(h[e.read], e.rows, ApprovalContext(h, e), ApprovalScopes(h, e)[n]);
    if found.Some? then found.value else e.newIds[n]
  }

  predicate Lasts(l: Lifetime, now: Time) {
    l.expiresAt.Some? ==> now < l.expiresAt.value
  }

  /** What the rows read and the rows stored say about that row after the approval: a found row must not
      have ended, and the lifetime it keeps or is given must last; a new row must be insertable. */
  predicate OwnRowActive(h: History, e: Event, n: nat)
    requires e.Approving? && e.read < |h| && e.a.requestId in h[e.read].requests
    requires n < |ApprovalScopes(h, e)| == |e.newIds|
  {
    var read, a, c, scope := h[e.read], Last(h), ApprovalContext(h, e), ApprovalScopes(h, e)[n];
    match FindCurrent(read, e.rows, c, scope)
    case Some(k) =>
      k in a.entitlements && Unended(a.entitlements[k])
      && Lasts(if WantedUpdate(k, read.entitlements[k], e.a.grant, c.details) == [] then a.entitlements[k].life
               else Merged(read.entitlements[k].life, e.a.grant), a.clock)
    case None =>
      Insertable(a, (e.newIds[n], NewEntitlement(c, scope, e.a.grant)), e.a.requestId, e.s) && Lasts(e.a.grant, a.clock)
  }

  lemma NotWanted(h: History, e: Event, k: Id)
    requires Behind(h, e) && k in h[e.read].entitlements
    requires WantedUpdate(k, h[e.read].entitlements[k], e.a.grant, e.a.details) == []
    ensures forall u :: u in ApprovingDecision(h, e).updates ==> u.id != k
  {
    forall u | u in ApprovingDecision(h, e).updates ensures u.id != k {
      PlannedUpdate(h[e.read], e.rows, ApprovalContext(h, e), e.a.grant, ApprovalScopes(h, e), e.newIds, u);
    }
  }

  lemma FoundRowAfter(h: History, e: Event, n: nat)
    requires Behind(h, e) && Approve(Last(h), ApprovingDecision(h, e), e.s).Some? && n < |ApprovalScopes(h, e)|
    requires FindCurrent(h[e.read], e.rows, ApprovalContext(h, e), ApprovalScopes(h, e)[n]).Some?
    ensures var b, own := Approve(Last(h), ApprovingDecision(h, e), e.s).value, OwnRow(h, e, n);
            && own in b.entitlements && InContext(b.entitlements[own], ApprovalContext(h, e))
            && b.entitlements[own].scope == ApprovalScopes(h, e)[n]
            && (Active(b.entitlements[own], b.clock) <==> OwnRowActive(h, e, n))
  {
    var read, a, d, c := h[e.read], Last(h), ApprovingDecision(h, e), ApprovalContext(h, e);
    var k := OwnRow(h, e, n);
    ApproveRow(a, d, e.s, k);
    assert RowKept(read.entitlements[k], a.entitlements[k]);
    PlannedGrant(read, e.rows, c, e.a.grant, ApprovalScopes(h, e), e.newIds, n);
    var wanted := WantedUpdate(k, read.entitlements[k], e.a.grant, c.details);
    if wanted == [] {
      NotWanted(h, e, k);
    } else if Unended(a.entitlements[k]) {
      assert wanted[0] in wanted;
      UpdateIsWritten(h, e, wanted[0]);
    }
  }

  lemma NewRowAfter(h: History, e: Event, n: nat)
    requires Behind(h, e) && Approve(Last(h), ApprovingDecision(h, e), e.s).Some? && n < |ApprovalScopes(h, e)|
    requires FindCurrent(h[e.read], e.rows, ApprovalContext(h, e), ApprovalScopes(h, e)[n]).None?
    ensures var b, own := Approve(Last(h), ApprovingDecision(h, e), e.s).value, OwnRow(h, e, n);
            && own !in Last(h).entitlements
            && (own in b.entitlements ==>
                  b.entitlements[own] == NewEntitlement(ApprovalContext(h, e), ApprovalScopes(h, e)[n], e.a.grant))
            && ((own in b.entitlements && Active(b.entitlements[own], b.clock)) <==> OwnRowActive(h, e, n))
  {
    var a, d, c, scope := Last(h), ApprovingDecision(h, e), ApprovalContext(h, e), ApprovalScopes(h, e)[n];
    var i := (e.newIds[n], NewEntitlement(c, scope, e.a.grant));
    PlannedGrant(h[e.read], e.rows, c, e.a.grant, ApprovalScopes(h, e), e.newIds, n);
    InsertTakesEffectIff(h, e, i);
    ApproveRow(a, d, e.s, i.0);
    forall u | u in d.updates ensures u.id != i.0 { UpdatedRowIsOld(h, e, u); }
  }

  /** Every row an approval changes or creates is the one it settles on for that row's scope. */
  lemma OtherRowsStay(h: History, e: Event, k: Id) returns (n: nat)
    requires Behind(h, e) && Approve(Last(h), ApprovingDecision(h, e), e.s).Some?
    requires k in Approve(Last(h), ApprovingDecision(h, e), e.s).value.entitlements
    ensures var b := Approve(Last(h), ApprovingDecision(h, e), e.s).value;
            || (k in Last(h).entitlements && b.entitlements[k] == Last(h).entitlements[k])
            || (n < |ApprovalScopes(h, e)| && k == OwnRow(h, e, n) && b.entitlements[k].scope == ApprovalScopes(h, e)[n]
                && InContext(b.entitlements[k], ApprovalContext(h, e)))
  {
    var read, a, d, c, scopes := h[e.read], Last(h), ApprovingDecision(h, e), ApprovalContext(h, e), ApprovalScopes(h, e);
    var mid, b := InsertAll(a, d.inserts, d.requestId, e.s), Approve(a, d, e.s).value;
    n := 0;
    ApproveRow(a, d, e.s, k);
    if k !in a.entitlements {
      var i := (k, mid.entitlements[k]);
      PlannedInsert(read, e.rows, c, e.a.grant, scopes, e.newIds, i);
      n :| 0 <= n < |scopes| && scopes[n] == i.1.scope;
      PlannedGrant(read, e.rows, c, e.a.grant, scopes, e.newIds, n);
      RowsDiffer(h, e);
      SameScopeSameInsert(d.inserts, i, (e.newIds[n], NewEntitlement(c, scopes[n], e.a.grant)));
      forall u | u in d.updates ensures u.id != k { UpdatedRowIsOld(h, e, u); }
    } else if b.entitlements[k] != a.entitlements[k] {
      var u :| u in d.updates && u.id == k;
      UpdatedRowIsOld(h, e, u);
      PlannedUpdate(read, e.rows, c, e.a.grant, scopes, e.newIds, u);
      n :| 0 <= n < |scopes| && scopes[n] == a.entitlements[k].scope;
    }
  }

  // ------------------------------------------------------------------ truthful outcomes

  /** Every row a plan inserts or updates is one of the rows it approves. */
  lemma {:induction false} PlannedRowsAreApproved(
      db: Db, rows: seq<Id>, c: Context, grant: Lifetime, scopes: seq<Scope>, newIds: seq<Id>, id: Id)
    requires |newIds| == |scopes|
    requires var p := PlanScopes(db, rows, c, grant, scopes, newIds);
             (exists i :: i in p.inserts && i.0 == id) || (exists u :: u in p.updates && u.id == id)
    ensures exists g :: g in PlanScopes(db, rows, c, grant, scopes, newIds).approved && g.1 == id
    decreases |scopes|
  {
    var p, one := PlanScopes(db, rows, c, grant, scopes, newIds), PlanScope(db, rows, c, grant, scopes[0], newIds[0]);
    if one.approved[0].1 == id {
      assert one.approved[0] in p.approved;
    } else {
      PlannedRowsAreApproved(db, rows, c, grant, scopes[1..], newIds[1..], id);
      var g :| g in PlanScopes(db, rows, c, grant, scopes[1..], newIds[1..]).approved && g.1 == id;
      assert g in p.approved;
    }
  }

  predicate StoresDecision(db: Db, d: Decision, s: Surroundings)
    requires Approve(db, d, s).Some?
  {
    Decidable(UpdateAll(InsertAll(db, d.inserts, d.requestId, s), d.updates).value, d, s)
  }

  /** The repository reports success exactly when it stored the decision. */
  lemma OutcomeIsTruthful(h: History, e: Event)
    requires e.Approving? && Possible(h, e) && Approve(Last(h), ApprovingDecision(h, e), e.s).Some?
    ensures ApprovalOutcome(Last(h), ApprovingDecision(h, e), e.s).Granted?
       <==> StoresDecision(Last(h), ApprovingDecision(h, e), e.s)
  {
    var a, d, r := Last(h), ApprovingDecision(h, e), h[e.read].requests[e.a.requestId];
    var mid := InsertAll(a, d.inserts, d.requestId, e.s);
    var b := UpdateAll(mid, d.updates).value;
    if Decidable(b, d, e.s) {
      forall i | i in d.inserts ensures i.0 in mid.entitlements {
        PlannedRowsAreApproved(h[e.read], e.rows, Target(r, e.a), e.a.grant, r.scopes, e.newIds, i.0);
        var g :| g in d.approved && g.1 == i.0;
        assert GrantHolds(b, b.requests[d.requestId], d.connection, g);
        UpdateAllAt(mid, d.updates, i.0);
      }
      forall u | u in d.updates ensures Updatable(mid, u) {
        PlannedRowsAreApproved(h[e.read], e.rows, Target(r, e.a), e.a.grant, r.scopes, e.newIds, u.id);
        var g :| g in d.approved && g.1 == u.id;
        assert GrantHolds(b, b.requests[d.requestId], d.connection, g);
        UpdateAllAt(mid, d.updates, u.id);
      }
    }
  }

  // ------------------------------------------------------------------ a refused approval

  /** What is left behind when the repository reports that the entitlements changed: an insert that went
      through, or an update that changed its row. */
  ghost predicate LeavesRows(h: History, e: Event)
    requires Behind(h, e)
  {
    var a, d := Last(h), ApprovingDecision(h, e);
    || (exists i :: i in d.inserts && Insertable(a, i, d.requestId, e.s))
    || (exists u :: u in d.updates && Updatable(a, u)
                    && (u.life != a.entitlements[u.id].life || u.hash != a.entitlements[u.id].hash))
  }

  lemma EntitlementsChangedIff(h: History, e: Event)
    requires Behind(h, e) && Approve(Last(h), ApprovingDecision(h, e), e.s).Some?
    ensures ApprovalOutcome(Last(h), ApprovingDecision(h, e), e.s).EntitlementsChanged?
       <==> exists i :: i in ApprovingDecision(h, e).inserts && !Insertable(Last(h), i, e.a.requestId, e.s)
  {
    forall i | i in ApprovingDecision(h, e).inserts
      ensures var d := ApprovingDecision(h, e);
              i.0 in InsertAll(Last(h), d.inserts, d.requestId, e.s).entitlements <==> Insertable(Last(h), i, d.requestId, e.s)
    {
      InsertTakesEffectIff(h, e, i);
    }
  }

  lemma UpdateOfRowIsOne(h: History, e: Event, u: Update, v: Update)
    requires Behind(h, e) && u in ApprovingDecision(h, e).updates && v in ApprovingDecision(h, e).updates && u.id == v.id
    ensures u == v
  {
    PlannedUpdate(h[e.read], e.rows, ApprovalContext(h, e), e.a.grant, ApprovalScopes(h, e), e.newIds, u);
    PlannedUpdate(h[e.read], e.rows, ApprovalContext(h, e), e.a.grant, ApprovalScopes(h, e), e.newIds, v);
  }

  lemma UpdateIsWritten(h: History, e: Event, u: Update)
    requires Behind(h, e) && Approve(Last(h), ApprovingDecision(h, e), e.s).Some?
    requires u in ApprovingDecision(h, e).updates && Updatable(Last(h), u)
    ensures var b := Approve(Last(h), ApprovingDecision(h, e), e.s).value;
            u.id in b.entitlements
            && b.entitlements[u.id] == Last(h).entitlements[u.id].(life := u.life, hash := u.hash)
  {
    var d := ApprovingDecision(h, e);
    UpdatedRowIsOld(h, e, u);
    forall v | v in d.updates && v.id == u.id ensures v == u { UpdateOfRowIsOne(h, e, u, v); }
    UpdateAllWrites(InsertAll(Last(h), d.inserts, d.requestId, e.s), d.updates, u);
  }

  lemma LeftRowChanges(h: History, e: Event)
    requires Behind(h, e) && Approve(Last(h), ApprovingDecision(h, e), e.s).Some? && LeavesRows(h, e)
    ensures Approve(Last(h), ApprovingDecision(h, e), e.s).value.entitlements != Last(h).entitlements
  {
    var a, d := Last(h), ApprovingDecision(h, e);
    if i :| i in d.inserts && Insertable(a, i, d.requestId, e.s) {
      InsertTakesEffectIff(h, e, i);
      ApproveRow(a, d, e.s, i.0);
    } else {
      var u :| u in d.updates && Updatable(a, u) && (u.life != a.entitlements[u.id].life || u.hash != a.entitlements[u.id].hash);
      UpdateIsWritten(h, e, u);
    }
  }

  lemma UntouchedRow(h: History, e: Event, k: Id)
    requires Behind(h, e) && Approve(Last(h), ApprovingDecision(h, e), e.s).Some? && !LeavesRows(h, e)
    ensures var a, b := Last(h), Approve(Last(h), ApprovingDecision(h, e), e.s).value;
            (k in b.entitlements <==> k in a.entitlements)
            && (k in a.entitlements ==> b.entitlements[k] == a.entitlements[k])
  {
    var a, d := Last(h), ApprovingDecision(h, e);
    var mid := InsertAll(a, d.inserts, d.requestId, e.s);
    ApproveRow(a, d, e.s, k);
    if k in mid.entitlements && k !in a.entitlements {
      InsertTakesEffectIff(h, e, (k, mid.entitlements[k]));
      assert false;
    }
  }

  lemma NothingLeftBehind(h: History, e: Event)
    requires Behind(h, e) && Approve(Last(h), ApprovingDecision(h, e), e.s).Some? && !LeavesRows(h, e)
    ensures Approve(Last(h), ApprovingDecision(h, e), e.s).value.entitlements == Last(h).entitlements
  {
    var a, b := Last(h), Approve(Last(h), ApprovingDecision(h, e), e.s).value;
    forall k ensures k in b.entitlements <==> k in a.entitlements { UntouchedRow(h, e, k); }
    forall k | k in a.entitlements ensures b.entitlements[k] == a.entitlements[k] { UntouchedRow(h, e, k); }
  }

  /** An approval that is answered "entitlements changed" decides nothing, and changes entitlements exactly
      when one of its inserts or updates had its guard fulfilled. */
  lemma RefusedApprovalLeavesRowsIff(h: History, e: Event)
    requires Behind(h, e) && Approve(Last(h), ApprovingDecision(h, e), e.s).Some?
    requires ApprovalOutcome(Last(h), ApprovingDecision(h, e), e.s).EntitlementsChanged?
    ensures After(h, e).requests == Last(h).requests
    ensures After(h, e).entitlements != Last(h).entitlements <==> LeavesRows(h, e)
  {
    var d := ApprovingDecision(h, e);
    OutcomeIsTruthful(h, e);
    if LeavesRows(h, e) { LeftRowChanges(h, e); } else { NothingLeftBehind(h, e); }
    InsertAllAt(Last(h), d.inserts, d.requestId, e.s, 0);
    UpdateAllAt(InsertAll(Last(h), d.inserts, d.requestId, e.s), d.updates, 0);
  }
}
