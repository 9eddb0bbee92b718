/** What the use cases are for: no token outlives or survives the permissions behind it. It holds in
    every run in which three things that the guards do not check do not change under a call. */
module AccessSafety {
  import opened Options
  import opened EntitlementLifetimes
  import opened AccessStore
  import opened AccessPlans
  import opened AccessEffects
  import opened AccessRuns
  import opened Sequences
  import opened Runs
  import opened AccessSoundness

  // ------------------------------------------------------------------ the hypothesis

  /** The active rows an approval may write over, or must not duplicate, are as it read them. */
  ghost predicate ApprovalFresh(read: Db, last: Db, c: Context, scopes: seq<Scope>, now: Time) {
    forall k {:trigger last.entitlements[k]} ::
      (k in last.entitlements && Unended(last.entitlements[k]) && InContext(last.entitlements[k], c)
       && last.entitlements[k].scope in scopes) ==>
        && k in read.entitlements && read.entitlements[k].life == last.entitlements[k].life
        && (Active(last.entitlements[k], now) ==> Active(last.entitlements[k], last.clock))
  }

  /** No single-use entitlement of the selection was upgraded since. */
  ghost predicate IssueFresh(read: Db, last: Db, rows: seq<Id>) {
    forall k {:trigger k in rows} ::
      k in rows && k in read.entitlements && k in last.entitlements && read.entitlements[k].life.mode.Once? ==>
        last.entitlements[k].life.mode.Once?
  }

  /** No lease for the entitlement was issued since its leases were listed. */
  ghost predicate RevocationFresh(read: Db, last: Db, id: Id, now: Time) {
    LiveLeases(last, id, now) <= LiveLeases(read, id, now)
  }

  ghost predicate Fresh(h: History, e: Event)
    requires Possible(h, e)
  {
    match e
    case Approving(read, a, _, _, _) =>
      var r := h[read].requests[a.requestId];
      ApprovalFresh(h[read], Last(h), Target(r, a), r.scopes, a.now)
    case Issue(read, _, rows, _, _, _, _, _) => IssueFresh(h[read], Last(h), rows)
    case Revoke(read, id, now) => RevocationFresh(h[read], Last(h), id, now)
    case _ => true
  }

  ghost function FreshSteps(): (seq<Db>, Event, Db) -> bool {
    (h: seq<Db>, e: Event, next: Db) => h != [] && Possible(h, e) && next == After(h, e) && Fresh(h, e)
  }

  ghost predicate IsFreshRun(h: History, es: seq<Event>) {
    RunOf(h, es, EMPTY, FreshSteps())
  }

  lemma FreshRunIsRun(h: History, es: seq<Event>)
    requires IsFreshRun(h, es)
    ensures IsRun(h, es)
  {
    Widen(h, es, EMPTY, FreshSteps(), Steps());
  }

  // -------------------------------------------------------------------------- safety

  predicate NamedSafe(e: Entitlement, l: Lease, clock: Time) {
    && (Unended(e) ==> !e.life.mode.Once?)
    && (e.life.expiresAt.Some? ==> l.expiresAt <= e.life.expiresAt.value)
    && (e.ended == Some(Revoked) ==> l.revoked || l.expiresAt <= clock)
  }

  /** The lease outlives no entitlement it names, is over if one of them is revoked, and left none
      of them single-use and still active. */
  predicate LeaseSafe(db: Db, l: Lease) {
    forall k :: k in l.entitlements && k in db.entitlements ==> NamedSafe(db.entitlements[k], l, db.clock)
  }

  predicate SameUse(e: Entitlement, f: Entitlement) {
    && e.agent == f.agent && e.resource == f.resource && e.connection == f.connection
    && Exact(e.details, f.details) && e.scope == f.scope
  }

  /** At most one active entitlement per agent, resource, connection, details (as a multiset), scope. */
  predicate UsesUnique(db: Db) {
    forall k, l ::
      (k in db.entitlements && l in db.entitlements && Active(db.entitlements[k], db.clock)
       && Active(db.entitlements[l], db.clock) && SameUse(db.entitlements[k], db.entitlements[l])) ==> k == l
  }

  ghost predicate Safe(db: Db) {
    UsesUnique(db) && forall l :: l in db.leases ==> LeaseSafe(db, db.leases[l])
  }

  /** No entitlement's lifetime gets shorter. */
  ghost predicate Lengthens(a: Db, b: Db) {
    forall k {:trigger b.entitlements[k]} :: k in a.entitlements && k in b.entitlements ==>
      NoLonger(a.entitlements[k].life, b.entitlements[k].life)
  }

  /** The row lasts no less, and is not revoked by the change. */
  predicate RowFollows(e: Entitlement, f: Entitlement) {
    && Valid(e.life) && Valid(f.life) && NoLonger(e.life, f.life)
    && (f.ended == e.ended || f.ended == Some(Consumed)) && (!Unended(e) ==> f == e)
  }

  lemma NamedStaysSafe(e: Entitlement, f: Entitlement, l: Lease, m: Lease, clock: Time, clock': Time)
    requires NamedSafe(e, l, clock) && RowFollows(e, f) && LeaseKept(l, m) && clock <= clock'
    ensures NamedSafe(f, m, clock')
  {
  }

  lemma LeaseStaysSafe(a: Db, b: Db, l: Lease, m: Lease)
    requires LeaseSafe(a, l) && LeaseKept(l, m) && a.clock <= b.clock
    requires forall k :: k in l.entitlements ==> k in a.entitlements
    requires forall k :: k in l.entitlements && k in b.entitlements ==> RowFollows(a.entitlements[k], b.entitlements[k])
    ensures LeaseSafe(b, m)
  {
    forall k | k in m.entitlements && k in b.entitlements ensures NamedSafe(b.entitlements[k], m, b.clock) {
      NamedStaysSafe(a.entitlements[k], b.entitlements[k], l, m, a.clock, b.clock);
    }
  }

  // ------------------------------------------------------------------------ approving

  /** An approval leaves every row as it is, or makes it last longer. */
  lemma ApprovingRowFollows(h: History, e: Event, k: Id)
    requires e.Approving? && Possible(h, e) && GoodHistory(h) && Fresh(h, e) && k in Last(h).entitlements
    requires Approve(Last(h), ApprovingDecision(h, e), e.s).Some?
    ensures var b := Approve(Last(h), ApprovingDecision(h, e), e.s).value;
            && k in b.entitlements && RowFollows(Last(h).entitlements[k], b.entitlements[k])
            && (b.entitlements[k] == Last(h).entitlements[k]
                || FindCurrent(h[e.read], e.rows, Target(h[e.read].requests[e.a.requestId], e.a), b.entitlements[k].scope) == Some(k))
  {
    var read, a, d, r := h[e.read], Last(h), ApprovingDecision(h, e), h[e.read].requests[e.a.requestId];
    var b, c := Approve(a, d, e.s).value, Target(r, e.a);
    ApproveRow(a, d, e.s, k);
    assert Keeps(read, a) && RowSound(a.entitlements[k]);
    if b.entitlements[k] != a.entitlements[k] {
      var u :| u in d.updates && u.id == k && Unended(a.entitlements[k])
               && b.entitlements[k] == a.entitlements[k].(life := u.life, hash := u.hash);
      PlannedUpdate(read, e.rows, c, e.a.grant, r.scopes, e.newIds, u);
      assert RowKept(read.entitlements[k], a.entitlements[k]) && RowSound(read.entitlements[k]);
      assert read.entitlements[k].life == a.entitlements[k].life;
      MergedIsJoin(a.entitlements[k].life, e.a.grant, e.a.grant);
    }
  }

  lemma ApprovingLeasesSafe(h: History, e: Event, l: Id)
    requires e.Approving? && Possible(h, e) && GoodHistory(h) && Fresh(h, e)
    requires l in Last(h).leases && LeaseSafe(Last(h), Last(h).leases[l])
    requires Approve(Last(h), ApprovingDecision(h, e), e.s).Some?
    ensures var b := Approve(Last(h), ApprovingDecision(h, e), e.s).value;
            l in b.leases && LeaseSafe(b, b.leases[l])
  {
    var a, b := Last(h), Approve(Last(h), ApprovingDecision(h, e), e.s).value;
    var lease := a.leases[l];
    ApproveRow(a, ApprovingDecision(h, e), e.s, 0);
    assert LeaseSound(a, lease);
    forall k | k in lease.entitlements ensures k in a.entitlements { assert SuppliedFits(a, a.requests[lease.request], k); }
    forall k | k in lease.entitlements && k in b.entitlements ensures RowFollows(a.entitlements[k], b.entitlements[k]) {
      ApprovingRowFollows(h, e, k);
    }
    LeaseStaysSafe(a, b, lease, b.leases[l]);
  }

  lemma NewRowIsPlanned(h: History, e: Event, k: Id)
    requires e.Approving? && Possible(h, e) && GoodHistory(h) && k !in Last(h).entitlements
    requires Approve(Last(h), ApprovingDecision(h, e), e.s).Some?
    requires k in Approve(Last(h), ApprovingDecision(h, e), e.s).value.entitlements
    ensures var f, r := Approve(Last(h), ApprovingDecision(h, e), e.s).value.entitlements[k], h[e.read].requests[e.a.requestId];
            && f == NewEntitlement(Target(r, e.a), f.scope, e.a.grant) && f.scope in r.scopes
            && FindCurrent(h[e.read], e.rows, Target(r, e.a), f.scope).None?
  {
    var read, a, d, r := h[e.read], Last(h), ApprovingDecision(h, e), h[e.read].requests[e.a.requestId];
    var b, c := Approve(a, d, e.s).value, Target(r, e.a);
    ApproveRow(a, d, e.s, k);
    var mid := InsertAll(a, d.inserts, d.requestId, e.s);
    PlannedInsert(read, e.rows, c, e.a.grant, r.scopes, e.newIds, (k, mid.entitlements[k]));
    assert Keeps(read, a);
    forall u | u in d.updates ensures u.id != k { PlannedUpdate(read, e.rows, c, e.a.grant, r.scopes, e.newIds, u); }
  }

  /** An active row of the context that stays active was listed. */
  lemma ActiveRowIsFound(h: History, e: Event, k: Id)
    requires e.Approving? && Possible(h, e) && GoodHistory(h) && Fresh(h, e) && k in Last(h).entitlements
    requires Active(Last(h).entitlements[k], Last(h).clock)
    requires InContext(Last(h).entitlements[k], Target(h[e.read].requests[e.a.requestId], e.a))
    requires Last(h).entitlements[k].scope in h[e.read].requests[e.a.requestId].scopes
    ensures FindCurrent(h[e.read], e.rows, Target(h[e.read].requests[e.a.requestId], e.a), Last(h).entitlements[k].scope).Some?
  {
    var read, a := h[e.read], Last(h);
    assert Keeps(read, a) && k in read.entitlements && read.entitlements[k].life == a.entitlements[k].life;
    assert RowKept(read.entitlements[k], a.entitlements[k]);
    assert Active(read.entitlements[k], e.a.now);
    assert k in e.rows;
  }

  /** The row an approval found is still the active one, unless it has ended. */
  lemma FoundRowIsOnlyActive(h: History, e: Event, k: Id, l: Id)
    requires e.Approving? && Possible(h, e) && GoodHistory(h) && Fresh(h, e) && UsesUnique(Last(h))
    requires k in Last(h).entitlements && l in Last(h).entitlements
    requires Unended(Last(h).entitlements[k]) && Active(Last(h).entitlements[l], Last(h).clock)
    requires SameUse(Last(h).entitlements[k], Last(h).entitlements[l])
    requires FindCurrent(h[e.read], e.rows, Target(h[e.read].requests[e.a.requestId], e.a), Last(h).entitlements[k].scope)
          == Some(k)
    requires Last(h).entitlements[k].scope in h[e.read].requests[e.a.requestId].scopes
    ensures k == l
  {
    var read, a := h[e.read], Last(h);
    assert Keeps(read, a) && RowKept(read.entitlements[k], a.entitlements[k]);
    assert read.entitlements[k].life == a.entitlements[k].life;
    assert Active(a.entitlements[k], e.a.now);
  }

  /** Of the rows an approval finds or creates for a scope, at most one is active afterwards. */
  lemma ApprovingUsesUnique(h: History, e: Event, k: Id, l: Id)
    requires e.Approving? && Possible(h, e) && GoodHistory(h) && Fresh(h, e) && UsesUnique(Last(h))
    requires Approve(Last(h), ApprovingDecision(h, e), e.s).Some?
    requires var b := Approve(Last(h), ApprovingDecision(h, e), e.s).value;
             && k in b.entitlements && l in b.entitlements && SameUse(b.entitlements[k], b.entitlements[l])
             && Active(b.entitlements[k], b.clock) && Active(b.entitlements[l], b.clock)
    ensures k == l
  {
    var a, d := Last(h), ApprovingDecision(h, e);
    var b := Approve(a, d, e.s).value;
    ApproveRow(a, d, e.s, k);
    if k in a.entitlements && l in a.entitlements {
      OldRowsUnique(h, e, k, l);
    } else if k !in a.entitlements && l !in a.entitlements {
      NewRowIsPlanned(h, e, k);
      NewRowIsPlanned(h, e, l);
      ApproveSlots(a, d, e.s);
      assert SlotsUnique(b) && SameSlot(b.entitlements[k], b.entitlements[l]);
    } else if k in a.entitlements {
      OldAndNewDiffer(h, e, k, l);
    } else {
      OldAndNewDiffer(h, e, l, k);
    }
  }

  lemma OldRowsUnique(h: History, e: Event, k: Id, l: Id)
    requires e.Approving? && Possible(h, e) && GoodHistory(h) && Fresh(h, e) && UsesUnique(Last(h))
    requires Approve(Last(h), ApprovingDecision(h, e), e.s).Some?
    requires var b := Approve(Last(h), ApprovingDecision(h, e), e.s).value;
             && k in Last(h).entitlements && l in Last(h).entitlements && k in b.entitlements && l in b.entitlements
             && SameUse(b.entitlements[k], b.entitlements[l])
             && Active(b.entitlements[k], Last(h).clock) && Active(b.entitlements[l], Last(h).clock)
    ensures k == l
  {
    var a, b := Last(h), Approve(Last(h), ApprovingDecision(h, e), e.s).value;
    ApprovingRowFollows(h, e, k);
    ApprovingRowFollows(h, e, l);
    ApproveKeeps(a, ApprovingDecision(h, e), e.s);
    assert RowKept(a.entitlements[k], b.entitlements[k]) && RowKept(a.entitlements[l], b.entitlements[l]);
    if b.entitlements[k] != a.entitlements[k] && b.entitlements[l] == a.entitlements[l] {
      ChangedRowIsWanted(h, e, k);
      FoundRowIsOnlyActive(h, e, k, l);
    } else if b.entitlements[l] != a.entitlements[l] && b.entitlements[k] == a.entitlements[k] {
      ChangedRowIsWanted(h, e, l);
      FoundRowIsOnlyActive(h, e, l, k);
    }
  }

  lemma ChangedRowIsWanted(h: History, e: Event, k: Id)
    requires e.Approving? && Possible(h, e) && k in Last(h).entitlements && GoodHistory(h)
    requires Approve(Last(h), ApprovingDecision(h, e), e.s).Some?
    requires var b := Approve(Last(h), ApprovingDecision(h, e), e.s).value;
             k in b.entitlements && b.entitlements[k] != Last(h).entitlements[k]
    ensures Last(h).entitlements[k].scope in h[e.read].requests[e.a.requestId].scopes
  {
    var read, a, d, r := h[e.read], Last(h), ApprovingDecision(h, e), h[e.read].requests[e.a.requestId];
    ApproveRow(a, d, e.s, k);
    var u :| u in d.updates && u.id == k;
    PlannedUpdate(read, e.rows, Target(r, e.a), e.a.grant, r.scopes, e.newIds, u);
    assert Keeps(read, a) && RowKept(read.entitlements[k], a.entitlements[k]);
  }

  /** An approval inserts no row beside an active one. */
  lemma OldAndNewDiffer(h: History, e: Event, old_: Id, new_: Id)
    requires e.Approving? && Possible(h, e) && GoodHistory(h) && Fresh(h, e)
    requires Approve(Last(h), ApprovingDecision(h, e), e.s).Some?
    requires var b := Approve(Last(h), ApprovingDecision(h, e), e.s).value;
             && old_ in Last(h).entitlements && new_ !in Last(h).entitlements
             && old_ in b.entitlements && new_ in b.entitlements && Active(b.entitlements[old_], Last(h).clock)
    ensures var b := Approve(Last(h), ApprovingDecision(h, e), e.s).value;
            !SameUse(b.entitlements[old_], b.entitlements[new_])
  {
    var a, b := Last(h), Approve(Last(h), ApprovingDecision(h, e), e.s).value;
    NewRowIsPlanned(h, e, new_);
    ApprovingRowFollows(h, e, old_);
    if SameUse(b.entitlements[old_], b.entitlements[new_]) && b.entitlements[old_] == a.entitlements[old_] {
      ActiveRowIsFound(h, e, old_);
    }
  }

  lemma ApprovingSafe(h: History, e: Event)
    requires e.Approving? && Possible(h, e) && GoodHistory(h) && Fresh(h, e) && Safe(Last(h))
    ensures Safe(After(h, e)) && Lengthens(Last(h), After(h, e))
  {
    var a, d := Last(h), ApprovingDecision(h, e);
    if Approve(a, d, e.s).Some? {
      var b := Approve(a, d, e.s).value;
      ApproveRow(a, d, e.s, 0);
      forall k | k in a.entitlements && k in b.entitlements ensures NoLonger(a.entitlements[k].life, b.entitlements[k].life) {
        ApprovingRowFollows(h, e, k);
      }
      forall l | l in b.leases ensures LeaseSafe(b, b.leases[l]) { ApprovingLeasesSafe(h, e, l); }
      forall k, l | k in b.entitlements && l in b.entitlements && Active(b.entitlements[k], b.clock)
                    && Active(b.entitlements[l], b.clock) && SameUse(b.entitlements[k], b.entitlements[l])
        ensures k == l
      {
        ApprovingUsesUnique(h, e, k, l);
      }
    }
  }

  // --------------------------------------------------------------------- other events

  lemma EndingKeepsUses(a: Db, b: Db)
    requires UsesUnique(a) && a.clock <= b.clock
    requires forall k :: k in b.entitlements ==>
               k in a.entitlements && (b.entitlements[k] == a.entitlements[k] || !Unended(b.entitlements[k]))
    ensures UsesUnique(b)
  {
    forall k, l | k in b.entitlements && l in b.entitlements && Active(b.entitlements[k], b.clock)
                  && Active(b.entitlements[l], b.clock) && SameUse(b.entitlements[k], b.entitlements[l])
      ensures k == l
    {
      assert Active(a.entitlements[k], a.clock) && Active(a.entitlements[l], a.clock);
    }
  }

  /** A write that changes no row, and no lease except to revoke it. */
  lemma QuietStepSafe(a: Db, b: Db)
    requires Sound(a) && Safe(a) && b.entitlements == a.entitlements && a.clock <= b.clock
    requires forall l :: l in b.leases ==> l in a.leases && LeaseKept(a.leases[l], b.leases[l])
    ensures Safe(b) && Lengthens(a, b)
  {
    EndingKeepsUses(a, b);
    forall l | l in b.leases ensures LeaseSafe(b, b.leases[l]) {
      forall k | k in b.leases[l].entitlements && k in b.entitlements
        ensures NamedSafe(b.entitlements[k], b.leases[l], b.clock)
      {
        assert NamedSafe(a.entitlements[k], a.leases[l], a.clock);
      }
    }
    forall k | k in a.entitlements && k in b.entitlements ensures NoLonger(a.entitlements[k].life, b.entitlements[k].life) {
      assert RowSound(a.entitlements[k]);
    }
  }

  lemma RevocationSafe(a: Db, read: Db, id: Id, now: Time)
    requires Sound(a) && Safe(a) && now <= a.clock && RevocationFresh(read, a, id, now)
    ensures var b := EndEntitlement(a, id, LiveLeases(read, id, now)); Safe(b) && Lengthens(a, b)
  {
    var b := EndEntitlement(a, id, LiveLeases(read, id, now));
    EndingKeepsUses(a, b);
    forall l | l in b.leases ensures LeaseSafe(b, b.leases[l]) {
      forall k | k in b.leases[l].entitlements && k in b.entitlements
        ensures NamedSafe(b.entitlements[k], b.leases[l], b.clock)
      {
        assert NamedSafe(a.entitlements[k], a.leases[l], a.clock);
        if k == id && !a.leases[l].revoked && now < a.leases[l].expiresAt { assert l in LiveLeases(a, id, now); }
      }
    }
    forall k | k in a.entitlements && k in b.entitlements ensures NoLonger(a.entitlements[k].life, b.entitlements[k].life) {
      assert RowSound(a.entitlements[k]);
    }
  }

  /** A lease is never issued beyond what the rows it was computed from allow. */
  lemma IssuedExpiryBounded(h: History, e: Event, k: Id)
    requires e.Issue? && Possible(h, e) && k in e.rows
    ensures k in h[e.read].entitlements
    ensures var x := h[e.read].entitlements[k].life.expiresAt; x.Some? ==> e.expiresAt <= x.value
  {
    EarliestExpiryBounds(h[e.read], e.rows, e.expiresAt);
  }

  lemma IssuedLeaseSafe(h: History, e: Event, k: Id)
    requires e.Issue? && Possible(h, e) && Sound(h[e.read]) && Sound(Last(h)) && IssueFresh(h[e.read], Last(h), e.rows)
    requires Lengthens(h[e.read], Last(h)) && After(h, e) != Last(h) && k in e.rows
    ensures k in After(h, e).entitlements && NamedSafe(After(h, e).entitlements[k], IssuedLease(e), After(h, e).clock)
  {
    var read, a := h[e.read], Last(h);
    IssuedExpiryBounded(h, e, k);
    assert SuppliedHolds(a, ContextOf(read.requests[e.request]), ScopesOf(read, e.rows), e.created, k);
    assert NoLonger(read.entitlements[k].life, a.entitlements[k].life);
    assert RowSound(read.entitlements[k]) && RowSound(a.entitlements[k]);
    OnceIdsAre(read, e.rows, k);
  }

  lemma IssueKeepsLeasesSafe(
      a: Db, id: Id, m: Lease, c: Context, scopes: seq<Scope>, consume: seq<Id>, created: Time, s: Surroundings, l: Id)
    requires l in a.leases && LeaseSafe(a, a.leases[l])
    ensures var b := IssueLease(a, id, m, c, scopes, consume, created, s); l in b.leases && LeaseSafe(b, b.leases[l])
  {
    var b := IssueLease(a, id, m, c, scopes, consume, created, s);
    forall k | k in b.leases[l].entitlements && k in b.entitlements
      ensures NamedSafe(b.entitlements[k], b.leases[l], b.clock)
    {
      assert NamedSafe(a.entitlements[k], a.leases[l], a.clock);
    }
  }

  lemma IssueKeepsUses(
      a: Db, id: Id, m: Lease, c: Context, scopes: seq<Scope>, consume: seq<Id>, created: Time, s: Surroundings)
    requires Sound(a) && UsesUnique(a)
    ensures var b := IssueLease(a, id, m, c, scopes, consume, created, s); UsesUnique(b) && Lengthens(a, b)
  {
    var b := IssueLease(a, id, m, c, scopes, consume, created, s);
    EndingKeepsUses(a, b);
    forall k | k in a.entitlements && k in b.entitlements ensures NoLonger(a.entitlements[k].life, b.entitlements[k].life) {
      assert RowSound(a.entitlements[k]);
    }
  }

  lemma IssueSafe(h: History, e: Event)
    requires e.Issue? && Possible(h, e) && GoodHistory(h) && Fresh(h, e) && Safe(Last(h))
    requires Lengthens(h[e.read], Last(h))
    ensures Safe(After(h, e)) && Lengthens(Last(h), After(h, e))
  {
    var a, b, c := Last(h), After(h, e), ContextOf(h[e.read].requests[e.request]);
    var scopes, once := ScopesOf(h[e.read], e.rows), OnceIds(h[e.read], e.rows);
    IssueKeepsUses(a, e.lease, IssuedLease(e), c, scopes, once, e.created, e.s);
    forall l | l in b.leases ensures LeaseSafe(b, b.leases[l]) {
      if l in a.leases {
        IssueKeepsLeasesSafe(a, e.lease, IssuedLease(e), c, scopes, once, e.created, e.s, l);
      } else {
        forall k | k in e.rows ensures NamedSafe(b.entitlements[k], IssuedLease(e), b.clock) { IssuedLeaseSafe(h, e, k); }
      }
    }
  }

  // ------------------------------------------------------------------------- all runs

  ghost predicate SafeHistory(h: seq<Db>) {
    && GoodHistory(h)
    && (forall i :: 0 <= i < |h| ==> Safe(h[i]))
    && (forall i, j :: 0 <= i <= j < |h| ==> Lengthens(h[i], h[j]))
  }

  lemma InsertRequestSafe(a: Db, id: Id, r: Request, s: Surroundings)
    requires Sound(a) && Safe(a)
    ensures Safe(InsertRequest(a, id, r, s)) && Lengthens(a, InsertRequest(a, id, r, s))
  {
    QuietStepSafe(a, InsertRequest(a, id, r, s));
  }

  lemma DenySafe(a: Db, id: Id)
    requires Sound(a) && Safe(a)
    ensures Safe(Deny(a, id)) && Lengthens(a, Deny(a, id))
  {
    QuietStepSafe(a, Deny(a, id));
  }

  lemma StepSafe(h: History, e: Event)
    requires Possible(h, e) && SafeHistory(h) && Fresh(h, e)
    ensures Safe(After(h, e)) && Lengthens(Last(h), After(h, e))
  {
    var a := Last(h);
    match e
    case Tick(time) => QuietStepSafe(a, a.(clock := time));
    case Ask(read, id, _, _, _, _, _, s) => InsertRequestSafe(a, id, NewRequest(h[read], e), s);
    case Approving(_, _, _, _, _) => ApprovingSafe(h, e);
    case Denying(id) => DenySafe(a, id);
    case Issue(_, _, _, _, _, _, _, _) => IssueSafe(h, e);
    case Revoke(read, id, now) => RevocationSafe(a, h[read], id, now);
    case RevokeLease(lease, now) =>
      QuietStepSafe(a, if now < a.leases[lease].expiresAt then a.(leases := RevokeLeases(a, {lease})) else a);
  }

  lemma LengthensTransitive(a: Db, b: Db, c: Db)
    requires Sound(a) && Sound(b) && Sound(c) && Keeps(a, b) && Lengthens(a, b) && Lengthens(b, c)
    ensures Lengthens(a, c)
  {
    forall k | k in a.entitlements && k in c.entitlements ensures NoLonger(a.entitlements[k].life, c.entitlements[k].life) {
      assert k in b.entitlements && k in c.entitlements;
      assert RowSound(a.entitlements[k]) && RowSound(b.entitlements[k]) && RowSound(c.entitlements[k]);
      NoLongerIsOrder(a.entitlements[k].life, b.entitlements[k].life, c.entitlements[k].life);
    }
  }

  lemma LengthensReflexive(a: Db)
    requires Sound(a)
    ensures Lengthens(a, a)
  {
    forall k | k in a.entitlements ensures NoLonger(a.entitlements[k].life, a.entitlements[k].life) {
      assert RowSound(a.entitlements[k]);
    }
  }

  lemma SafeHistoryExtends(h: History, next: Db)
    requires SafeHistory(h) && GoodHistory(h + [next]) && Safe(next) && Lengthens(Last(h), next)
    ensures SafeHistory(h + [next])
  {
    var g := h + [next];
    assert Sound(g[|h|]);
    forall i, j | 0 <= i <= j < |g| ensures Lengthens(g[i], g[j]) {
      if j < |h| {
        assert Lengthens(h[i], h[j]);
      } else if i < |h| {
        assert Lengthens(h[i], h[|h| - 1]) && Keeps(h[i], h[|h| - 1]);
        LengthensTransitive(h[i], Last(h), next);
      } else {
        LengthensReflexive(next);
      }
    }
  }

  /** Every state of a fresh run is safe, and no entitlement's lifetime ever gets shorter. */
  lemma FreshRunsAreSafe(h: History, es: seq<Event>)
    requires IsFreshRun(h, es)
    ensures SafeHistory(h)
  {
    EmptyIsSafe();
    forall g, e, next {:trigger FreshSteps()(g, e, next)} | g != [] && SafeHistory(g) && FreshSteps()(g, e, next)
      ensures SafeHistory(g + [next])
    {
      FreshStep(g, e, next);
    }
    Induction(h, es, EMPTY, FreshSteps(), AlwaysSafe());
  }

  ghost function AlwaysSafe(): (seq<Db>, seq<Event>) -> bool {
    (h: seq<Db>, es: seq<Event>) => h != [] && SafeHistory(h)
  }

  lemma EmptyIsSafe()
    ensures SafeHistory([EMPTY])
  {
    LengthensReflexive(EMPTY);
    KeepsReflexive(EMPTY);
  }

  lemma FreshStep(h: History, e: Event, next: Db)
    requires SafeHistory(h) && FreshSteps()(h, e, next)
    ensures SafeHistory(h + [next])
  {
    StepSound(h, e);
    HistoryExtends(h, next);
    StepSafe(h, e);
    SafeHistoryExtends(h, next);
  }
}
