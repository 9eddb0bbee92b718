/** When an approval goes through: what the repository reports against what it stored, and exactly
    which approvals succeed when nothing else runs. */
module AccessDecisions {
  import opened Options
  import opened EntitlementLifetimes
  import opened AccessStore
  import opened AccessPlans
  import opened AccessEffects
  import opened AccessRuns
  import opened Sequences
  import opened AccessSoundness
  import opened AccessOutcomes
  import opened AccessSafety

  // ---------------------------------------------------------------------------- asking

  /** Some listed row of the context has the scope. */
  ghost predicate Listed(db: Db, rows: seq<Id>, c: Context, scope: Scope) {
    exists k :: k in rows && k in db.entitlements && InContext(db.entitlements[k], c) && db.entitlements[k].scope == scope
  }

  lemma {:induction false} NothingToInsertIff(
      db: Db, rows: seq<Id>, c: Context, grant: Lifetime, scopes: seq<Scope>, newIds: seq<Id>)
    requires |newIds| == |scopes|
    ensures PlanScopes(db, rows, c, grant, scopes, newIds).inserts == []
       <==> forall scope :: scope in scopes ==> Listed(db, rows, c, scope)
    decreases |scopes|
  {
    if scopes != [] {
      NothingToInsertIff(db, rows, c, grant, scopes[1..], newIds[1..]);
      assert forall scope :: scope in scopes <==> scope == scopes[0] || scope in scopes[1..];
      var found := FindCurrent(db, rows, c, scopes[0]);
      assert found.Some? <==> Listed(db, rows, c, scopes[0]);
    }
  }

  /** A new request is approved at once exactly when each of its scopes has a row among the reusable ones, in its
      very context, and then it names for each scope such a row; else it waits for its controller. */
  lemma AskIsApprovedIff(read: Db, e: Event)
    requires e.Ask?
    ensures var r := NewRequest(read, e);
            && (r.status == Approved <==> forall scope :: scope in e.scopes ==> Listed(read, e.rows, e.c, scope))
            && (r.status == Approved ==>
                  |r.approved| == |e.scopes|
                  && forall n :: 0 <= n < |e.scopes| ==>
                       && r.approved[n].0 == e.scopes[n] && r.approved[n].1 in e.rows && r.approved[n].1 in read.entitlements
                       && InContext(read.entitlements[r.approved[n].1], e.c)
                       && read.entitlements[r.approved[n].1].scope == e.scopes[n])
            && (r.status != Approved ==> r.status == Pending && r.approved == [])
  {
    var grant := Lifetime(Once, None);
    NothingToInsertIff(read, e.rows, e.c, grant, e.scopes, e.scopes);
    PlannedGrant(read, e.rows, e.c, grant, e.scopes, e.scopes, 0);
    if forall scope :: scope in e.scopes ==> Listed(read, e.rows, e.c, scope) {
      forall n | 0 <= n < |e.scopes|
        ensures FindCurrent(read, e.rows, e.c, e.scopes[n]).Some?
        ensures PlanScopes(read, e.rows, e.c, grant, e.scopes, e.scopes).approved[n]
             == (e.scopes[n], FindCurrent(read, e.rows, e.c, e.scopes[n]).value)
      {
        PlannedGrant(read, e.rows, e.c, grant, e.scopes, e.scopes, n);
        assert Listed(read, e.rows, e.c, e.scopes[n]);
      }
    }
  }

  // ------------------------------------------------------------------- approving alone

  /** A row that has expired but was never ended, in a slot the approval needs. */
  predicate Blocking(e: Entitlement, c: Context, scopes: seq<Scope>, now: Time) {
    && Unended(e) && !Active(e, now)
    && e.agent == c.agent && e.resource == c.resource && e.connection == c.connection && e.hash == c.details
    && e.scope in scopes
  }

  ghost predicate Blocked(db: Db, c: Context, scopes: seq<Scope>, now: Time) {
    exists k :: k in db.entitlements && Blocking(db.entitlements[k], c, scopes, now)
  }

  /** An approval with nothing between its reads and its write, in a store that allows it. */
  ghost predicate Alone(h: History, e: Event) {
    && e.Approving? && Possible(h, e) && e.read == |h| - 1 && e.a.now == Last(h).clock
    && e.s.resourceEnabled && e.s.connectionActive
    && Sound(Last(h)) && UsesUnique(Last(h))
  }

  /** An active row in a slot the approval needs is the row it found. */
  lemma SlotRowIsFound(h: History, e: Event, k: Id)
    requires Alone(h, e) && k in Last(h).entitlements
    requires var f, c := Last(h).entitlements[k], ApprovalContext(h, e);
             && Unended(f) && f.agent == c.agent && f.resource == c.resource && f.connection == c.connection
             && f.hash == c.details && f.scope in ApprovalScopes(h, e)
    requires !Blocked(Last(h), ApprovalContext(h, e), ApprovalScopes(h, e), e.a.now)
    ensures FindCurrent(Last(h), e.rows, ApprovalContext(h, e), Last(h).entitlements[k].scope) == Some(k)
  {
    var a, f, c := Last(h), Last(h).entitlements[k], ApprovalContext(h, e);
    assert !Blocking(f, c, ApprovalScopes(h, e), e.a.now);
    assert RowSound(f) && Active(f, e.a.now) && InContext(f, c) && k in e.rows;
    var found := FindCurrent(a, e.rows, c, f.scope).value;
    assert Active(a.entitlements[found], a.clock) && SameUse(a.entitlements[found], f);
  }

  lemma InsertIsFree(h: History, e: Event, i: (Id, Entitlement))
    requires Alone(h, e) && !Blocked(Last(h), ApprovalContext(h, e), ApprovalScopes(h, e), e.a.now)
    requires i in ApprovingDecision(h, e).inserts
    ensures Insertable(Last(h), i, e.a.requestId, e.s)
  {
    var a, c := Last(h), ApprovalContext(h, e);
    PlannedInsert(a, e.rows, c, e.a.grant, ApprovalScopes(h, e), e.newIds, i);
    forall k | k in a.entitlements && Unended(a.entitlements[k]) ensures !SameSlot(a.entitlements[k], i.1) {
      if SameSlot(a.entitlements[k], i.1) { SlotRowIsFound(h, e, k); }
    }
  }

  lemma UpdateIsClear(h: History, e: Event, u: Update)
    requires Alone(h, e) && !Blocked(Last(h), ApprovalContext(h, e), ApprovalScopes(h, e), e.a.now)
    requires u in ApprovingDecision(h, e).updates
    ensures !Collides(Last(h), u)
  {
    var a, c := Last(h), ApprovalContext(h, e);
    PlannedUpdate(a, e.rows, c, e.a.grant, ApprovalScopes(h, e), e.newIds, u);
    var f := a.entitlements[u.id].(life := u.life, hash := u.hash);
    forall k | k in a.entitlements && k != u.id && Unended(a.entitlements[k]) ensures !SameSlot(a.entitlements[k], f) {
      if SameSlot(a.entitlements[k], f) { SlotRowIsFound(h, e, k); }
    }
  }

  lemma AloneIsBehind(h: History, e: Event)
    requires Alone(h, e)
    ensures Behind(h, e)
  {
    KeepsReflexive(Last(h));
  }

  lemma UnblockedUpdatesSucceed(h: History, e: Event)
    requires Alone(h, e) && !Blocked(Last(h), ApprovalContext(h, e), ApprovalScopes(h, e), e.a.now)
    ensures Approve(Last(h), ApprovingDecision(h, e), e.s).Some?
  {
    AloneIsBehind(h, e);
    forall u | u in ApprovingDecision(h, e).updates ensures !Collides(Last(h), u) { UpdateIsClear(h, e, u); }
    RolledBackIff(h, e);
  }

  lemma UnblockedGrantHolds(h: History, e: Event, n: nat)
    requires Alone(h, e) && !Blocked(Last(h), ApprovalContext(h, e), ApprovalScopes(h, e), e.a.now)
    requires Approve(Last(h), ApprovingDecision(h, e), e.s).Some? && n < |ApprovingDecision(h, e).approved|
    ensures var d := ApprovingDecision(h, e);
            GrantHolds(UpdateAll(InsertAll(Last(h), d.inserts, d.requestId, e.s), d.updates).value,
                       Last(h).requests[d.requestId], d.connection, d.approved[n])
  {
    var a, d, c := Last(h), ApprovingDecision(h, e), ApprovalContext(h, e);
    var scopes, mid := ApprovalScopes(h, e), InsertAll(Last(h), d.inserts, d.requestId, e.s);
    PlannedGrant(a, e.rows, c, e.a.grant, scopes, e.newIds, n);
    var id := d.approved[n].1;
    InsertAllAt(a, d.inserts, d.requestId, e.s, id);
    UpdateAllAt(mid, d.updates, id);
    if FindCurrent(a, e.rows, c, scopes[n]).None? {
      var i := (id, NewEntitlement(c, scopes[n], e.a.grant));
      AloneIsBehind(h, e);
      InsertIsFree(h, e, i);
      InsertTakesEffectIff(h, e, i);
    }
  }

  lemma UnblockedApprovalSucceeds(h: History, e: Event)
    requires Alone(h, e) && !Blocked(Last(h), ApprovalContext(h, e), ApprovalScopes(h, e), e.a.now)
    ensures Approve(Last(h), ApprovingDecision(h, e), e.s).Some?
    ensures ApprovalOutcome(Last(h), ApprovingDecision(h, e), e.s).Granted?
  {
    var a, d := Last(h), ApprovingDecision(h, e);
    var mid := InsertAll(a, d.inserts, d.requestId, e.s);
    UnblockedUpdatesSucceed(h, e);
    var b := UpdateAll(mid, d.updates).value;
    InsertAllAt(a, d.inserts, d.requestId, e.s, 0);
    UpdateAllAt(mid, d.updates, 0);
    PlannedGrant(a, e.rows, ApprovalContext(h, e), e.a.grant, ApprovalScopes(h, e), e.newIds, 0);
    forall g | g in d.approved ensures GrantHolds(b, b.requests[d.requestId], d.connection, g) {
      var n :| 0 <= n < |d.approved| && d.approved[n] == g;
      UnblockedGrantHolds(h, e, n);
    }
    OutcomeIsTruthful(h, e);
  }

  /** The blocking row keeps the slot, so the row to insert for its scope is skipped. */
  lemma BlockedInsertIsSkipped(h: History, e: Event, k: Id, n: nat)
    requires Alone(h, e) && k in Last(h).entitlements && n < |ApprovalScopes(h, e)|
    requires Blocking(Last(h).entitlements[k], ApprovalContext(h, e), ApprovalScopes(h, e), e.a.now)
    requires Last(h).entitlements[k].scope == ApprovalScopes(h, e)[n]
    requires FindCurrent(Last(h), e.rows, ApprovalContext(h, e), ApprovalScopes(h, e)[n]).None?
    ensures var d := ApprovingDecision(h, e); !AllInserted(InsertAll(Last(h), d.inserts, d.requestId, e.s), d.inserts)
  {
    var c, scopes := ApprovalContext(h, e), ApprovalScopes(h, e);
    AloneIsBehind(h, e);
    PlannedGrant(Last(h), e.rows, c, e.a.grant, scopes, e.newIds, n);
    var i := (e.newIds[n], NewEntitlement(c, scopes[n], e.a.grant));
    InsertTakesEffectIff(h, e, i);
    assert Taken(Last(h), i.1, {}) by { assert SameSlot(Last(h).entitlements[k], i.1); }
  }

  /** The active row of the scope has another hash, and giving it this one collides. */
  lemma BlockedUpdateCollides(h: History, e: Event, k: Id, n: nat)
    requires Alone(h, e) && k in Last(h).entitlements && n < |ApprovalScopes(h, e)|
    requires Blocking(Last(h).entitlements[k], ApprovalContext(h, e), ApprovalScopes(h, e), e.a.now)
    requires Last(h).entitlements[k].scope == ApprovalScopes(h, e)[n]
    requires FindCurrent(Last(h), e.rows, ApprovalContext(h, e), ApprovalScopes(h, e)[n]).Some?
    ensures Approve(Last(h), ApprovingDecision(h, e), e.s).None?
  {
    var a, c, scopes := Last(h), ApprovalContext(h, e), ApprovalScopes(h, e);
    var id := FindCurrent(a, e.rows, c, scopes[n]).value;
    var f := a.entitlements[id];
    assert Active(f, e.a.now) && id != k && !SameSlot(a.entitlements[k], f) && f.hash != c.details;
    AloneIsBehind(h, e);
    PlannedGrant(a, e.rows, c, e.a.grant, scopes, e.newIds, n);
    var u := Update(id, Merged(f.life, e.a.grant), c.details);
    assert u in WantedUpdate(id, f, e.a.grant, c.details);
    assert SameSlot(a.entitlements[k], f.(life := u.life, hash := u.hash));
    assert Collides(a, u);
    RolledBackIff(h, e);
  }

  /** Approved alone, a pending request is granted exactly when no expired row that was never ended
      still holds one of the slots it needs. */
  lemma ApprovalAloneSucceedsIff(h: History, e: Event)
    requires Alone(h, e)
    ensures (Approve(Last(h), ApprovingDecision(h, e), e.s).Some?
             && ApprovalOutcome(Last(h), ApprovingDecision(h, e), e.s).Granted?)
       <==> !Blocked(Last(h), ApprovalContext(h, e), ApprovalScopes(h, e), e.a.now)
  {
    var a, c, scopes := Last(h), ApprovalContext(h, e), ApprovalScopes(h, e);
    if Blocked(a, c, scopes, e.a.now) {
      var k :| k in a.entitlements && Blocking(a.entitlements[k], c, scopes, e.a.now);
      var n :| 0 <= n < |scopes| && scopes[n] == a.entitlements[k].scope;
      if FindCurrent(a, e.rows, c, scopes[n]).None? {
        BlockedInsertIsSkipped(h, e, k, n);
      } else {
        BlockedUpdateCollides(h, e, k, n);
      }
    } else {
      UnblockedApprovalSucceeds(h, e);
    }
  }

  lemma BlockingRowStays(h: History, e: Event, k: Id, now: Time)
    requires e.Approving? && Possible(h, e) && GoodHistory(h) && Fresh(h, e) && k in Last(h).entitlements
    requires Unended(Last(h).entitlements[k]) && !Active(Last(h).entitlements[k], now) && now <= e.a.now
    ensures k in After(h, e).entitlements && After(h, e).entitlements[k] == Last(h).entitlements[k]
  {
    var read, a := h[e.read], Last(h);
    if Approve(a, ApprovingDecision(h, e), e.s).Some? {
      ApprovingRowFollows(h, e, k);
      ApproveKeeps(a, ApprovingDecision(h, e), e.s);
      var b := Approve(a, ApprovingDecision(h, e), e.s).value;
      assert RowKept(a.entitlements[k], b.entitlements[k]);
      if b.entitlements[k] != a.entitlements[k] {
        ChangedRowIsWanted(h, e, k);
        FoundRowIsActive(h, e, k);
      }
    }
  }

  lemma FoundRowIsActive(h: History, e: Event, k: Id)
    requires e.Approving? && Possible(h, e) && GoodHistory(h) && Fresh(h, e) && k in Last(h).entitlements
    requires Unended(Last(h).entitlements[k])
    requires Last(h).entitlements[k].scope in ApprovalScopes(h, e)
    requires FindCurrent(h[e.read], e.rows, ApprovalContext(h, e), Last(h).entitlements[k].scope) == Some(k)
    ensures Active(Last(h).entitlements[k], e.a.now)
  {
    var read, a := h[e.read], Last(h);
    assert Keeps(read, a) && RowKept(read.entitlements[k], a.entitlements[k]);
  }

  /** No approval that is fresh ends or revives a blocking row: a retry fails the same way. (One that read
      the row while it was still active can revive it, after its lifetime was shortened meanwhile.) */
  lemma BlockedStaysBlocked(h: History, e: Event, c: Context, scopes: seq<Scope>, now: Time)
    requires e.Approving? && Possible(h, e) && GoodHistory(h) && Fresh(h, e)
    requires Blocked(Last(h), c, scopes, now) && now <= e.a.now
    ensures Blocked(After(h, e), c, scopes, now)
  {
    var k :| k in Last(h).entitlements && Blocking(Last(h).entitlements[k], c, scopes, now);
    BlockingRowStays(h, e, k, now);
    assert Blocking(After(h, e).entitlements[k], c, scopes, now);
  }
}
