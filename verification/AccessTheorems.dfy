/** The promises of the Agent access use cases over whole runs. */
module AccessTheorems {
  import opened Options
  import opened EntitlementLifetimes
  import opened AccessStore
  import opened AccessPlans
  import opened AccessEffects
  import opened AccessRuns
  import opened Sequences
  import opened Runs
  import opened AccessSoundness
  import opened AccessSafety

  // ---------------------------------------------------------------- atomic use cases

  /** Nothing commits between the reads and the write, and no time passes. */
  ghost predicate Atomic(h: History, e: Event) {
    match e
    case Approving(read, a, _, _, _) => read == |h| - 1 && a.now == Last(h).clock
    case Issue(read, _, _, _, _, _, _, _) => read == |h| - 1
    case Revoke(read, _, _) => read == |h| - 1
    case _ => true
  }

  ghost function AtomicSteps(): (seq<Db>, Event, Db) -> bool {
    (h: seq<Db>, e: Event, next: Db) => h != [] && Possible(h, e) && next == After(h, e) && Atomic(h, e)
  }

  ghost predicate IsAtomicRun(h: History, es: seq<Event>) {
    RunOf(h, es, EMPTY, AtomicSteps())
  }

  lemma AtomicIsFresh(h: History, e: Event)
    requires Possible(h, e) && Atomic(h, e)
    ensures Fresh(h, e)
  {
  }

  lemma AtomicRunsAreFresh(h: History, es: seq<Event>)
    requires IsAtomicRun(h, es)
    ensures IsFreshRun(h, es)
  {
    forall g, e, next {:trigger AtomicSteps()(g, e, next)} | AtomicSteps()(g, e, next) ensures FreshSteps()(g, e, next) {
      AtomicIsFresh(g, e);
    }
    Widen(h, es, EMPTY, AtomicSteps(), FreshSteps());
  }

  // ------------------------------------------------------------------ single accesses

  lemma RunStep(h: History, es: seq<Event>, n: nat)
    requires IsRun(h, es) && n < |es|
    ensures |h| == |es| + 1 && Possible(h[..n + 1], es[n]) && h[n + 1] == After(h[..n + 1], es[n])
  {
    StepAt(h, es, EMPTY, Steps(), n);
    assert Steps()(h[..n + 1], es[n], h[n + 1]);
  }

  lemma KeptBetween(h: History, es: seq<Event>, i: nat, j: nat)
    requires IsRun(h, es) && i <= j < |h|
    ensures Keeps(h[i], h[j]) && Sound(h[i]) && Sound(h[j])
  {
    RunsAreSound(h, es);
  }

  /** A new lease is issued only for active entitlements. */
  lemma LeaseOrigin(h: History, e: Event, m: Id, k: Id)
    requires Possible(h, e) && m in After(h, e).leases && k in After(h, e).leases[m].entitlements
    ensures (m in Last(h).leases && k in Last(h).leases[m].entitlements)
         || (e.Issue? && m == e.lease && k in Last(h).entitlements && Unended(Last(h).entitlements[k]))
  {
    match e
    case Approving(_, _, _, _, s) =>
      if Approve(Last(h), ApprovingDecision(h, e), s).Some? { ApproveRow(Last(h), ApprovingDecision(h, e), s, k); }
    case Issue(read, request, rows, _, created, _, _, _) =>
      if m !in Last(h).leases {
        assert SuppliedHolds(Last(h), ContextOf(h[read].requests[request]), ScopesOf(h[read], rows), created, k);
      }
    case _ =>
  }

  lemma EndedGainsNoLeaseNow(h: History, es: seq<Event>, i: nat, j: nat, k: Id, m: Id)
    requires IsRun(h, es) && i <= j < |es| && |h| == |es| + 1
    requires k in h[i].entitlements && h[i].entitlements[k].ended.Some?
    requires m in h[j + 1].leases && k in h[j + 1].leases[m].entitlements
    ensures m in h[j].leases && k in h[j].leases[m].entitlements
  {
    KeptBetween(h, es, i, j);
    assert RowKept(h[i].entitlements[k], h[j].entitlements[k]);
    RunStep(h, es, j);
    LeaseOrigin(h[..j + 1], es[j], m, k);
  }

  /** No token is ever issued for an entitlement that has ended, whatever the interleaving. */
  lemma {:induction false} EndedGainsNoLease(h: History, es: seq<Event>, i: nat, j: nat, k: Id, m: Id)
    requires IsRun(h, es) && i <= j < |h| && k in h[i].entitlements && h[i].entitlements[k].ended.Some?
    requires m in h[j].leases && k in h[j].leases[m].entitlements
    ensures m in h[i].leases && k in h[i].leases[m].entitlements
    decreases j
  {
    if i < j {
      EndedGainsNoLeaseNow(h, es, i, j - 1, k, m);
      EndedGainsNoLease(h, es, i, j - 1, k, m);
    }
  }

  lemma IssueConsumes(h: History, e: Event, k: Id)
    requires e.Issue? && Possible(h, e) && After(h, e) != Last(h) && k in e.rows
    requires Lengthens(h[e.read], Last(h)) && Sound(h[e.read]) && Sound(Last(h))
    requires k in Last(h).entitlements && Last(h).entitlements[k].life.mode.Once?
    ensures k in After(h, e).entitlements && After(h, e).entitlements[k].ended == Some(Consumed)
    ensures Unended(Last(h).entitlements[k])
    ensures After(h, e).leases == Last(h).leases[e.lease := IssuedLease(e)]
  {
    var read, a := h[e.read], Last(h);
    assert SuppliedHolds(a, ContextOf(read.requests[e.request]), ScopesOf(read, e.rows), e.created, k);
    assert k in read.entitlements && NoLonger(read.entitlements[k].life, a.entitlements[k].life);
    assert RowSound(read.entitlements[k]) && RowSound(a.entitlements[k]);
    OnceIdsAre(read, e.rows, k);
  }

  /** A single-use entitlement that is still active was never leased. */
  lemma UnendedOnceIsUnleased(h: History, es: seq<Event>, n: nat, k: Id, j: nat, m: Id)
    requires IsFreshRun(h, es) && j <= n < |h| && k in h[n].entitlements
    requires Unended(h[n].entitlements[k]) && h[n].entitlements[k].life.mode.Once?
    requires m in h[j].leases
    ensures k !in h[j].leases[m].entitlements
  {
    FreshRunsAreSafe(h, es);
    assert Keeps(h[j], h[n]) && LeaseKept(h[j].leases[m], h[n].leases[m]);
    assert LeaseSafe(h[n], h[n].leases[m]);
  }

  lemma LifeBetween(h: History, es: seq<Event>, i: nat, j: nat)
    requires IsFreshRun(h, es) && i <= j < |h|
    ensures Lengthens(h[i], h[j]) && Sound(h[i]) && Sound(h[j])
  {
    FreshRunsAreSafe(h, es);
  }

  lemma RunIssue(h: History, es: seq<Event>, n: nat)
    requires IsFreshRun(h, es) && n < |es| && es[n].Issue?
    ensures |h| == |es| + 1
    ensures var g: History, e := h[..n + 1], es[n];
            && Possible(g, e) && h[n + 1] == After(g, e) && Last(g) == h[n]
            && Lengthens(g[e.read], Last(g)) && Sound(g[e.read]) && Sound(Last(g))
  {
    FreshRunIsRun(h, es);
    RunStep(h, es, n);
    LifeBetween(h, es, es[n].read, n);
  }

  lemma RunIssueConsumes(h: History, es: seq<Event>, n: nat, k: Id)
    requires IsFreshRun(h, es) && n < |es| && es[n].Issue? && h[n + 1] != h[n]
    requires k in es[n].rows && k in h[n].entitlements && h[n].entitlements[k].life.mode.Once?
    ensures k in h[n + 1].entitlements && h[n + 1].entitlements[k].ended == Some(Consumed)
    ensures Unended(h[n].entitlements[k]) && h[n + 1].leases == h[n].leases[es[n].lease := IssuedLease(es[n])]
  {
    RunIssue(h, es, n);
    IssueConsumes(h[..n + 1], es[n], k);
  }

  /** Single use: the lease issued while an entitlement was `once` is the only one ever to name it. */
  lemma SingleUse(h: History, es: seq<Event>, n: nat, k: Id, j: nat, m: Id)
    requires IsFreshRun(h, es) && n < |es| && es[n].Issue? && h[n + 1] != h[n]
    requires k in es[n].rows && k in h[n].entitlements && h[n].entitlements[k].life.mode.Once?
    requires j < |h| && m in h[j].leases && k in h[j].leases[m].entitlements
    ensures m == es[n].lease
  {
    FreshRunIsRun(h, es);
    RunIssueConsumes(h, es, n, k);
    if j <= n {
      UnendedOnceIsUnleased(h, es, n, k, j, m);
    } else {
      EndedGainsNoLease(h, es, n + 1, j, k, m);
      if m != es[n].lease { UnendedOnceIsUnleased(h, es, n, k, n, m); }
    }
  }

  // -------------------------------------------------------------------- the join of grants

  /** Whether the approval finds or creates row k, and its transaction is not rolled back. */
  ghost predicate Grants(h: History, e: Event, k: Id) {
    && Possible(h, e) && e.Approving? && Approve(Last(h), ApprovingDecision(h, e), e.s).Some?
    && var r, last := h[e.read].requests[e.a.requestId], Last(h);
    if k in last.entitlements then
      && Unended(last.entitlements[k]) && last.entitlements[k].scope in r.scopes
      && FindCurrent(h[e.read], e.rows, Target(r, e.a), last.entitlements[k].scope) == Some(k)
    else k in Approve(last, ApprovingDecision(h, e), e.s).value.entitlements
  }

  /** What an approval would write over a row it found, from what is stored now. */
  lemma UpdatesForRow(h: History, e: Event, k: Id, u: Update)
    requires e.Approving? && Possible(h, e) && Keeps(h[e.read], Last(h)) && Fresh(h, e) && k in Last(h).entitlements
    requires Unended(Last(h).entitlements[k]) && u in ApprovingDecision(h, e).updates && u.id == k
    ensures u == Update(k, Merged(Last(h).entitlements[k].life, e.a.grant), e.a.details)
  {
    var read, r := h[e.read], h[e.read].requests[e.a.requestId];
    PlannedUpdate(read, e.rows, Target(r, e.a), e.a.grant, r.scopes, e.newIds, u);
    assert RowKept(read.entitlements[k], Last(h).entitlements[k]);
  }

  lemma FoundRowIsUpdated(h: History, e: Event, k: Id)
    requires e.Approving? && Possible(h, e) && Keeps(h[e.read], Last(h)) && Fresh(h, e)
    requires k in Last(h).entitlements && Grants(h, e, k)
    ensures var life := Merged(Last(h).entitlements[k].life, e.a.grant);
            Last(h).entitlements[k].life == life || Update(k, life, e.a.details) in ApprovingDecision(h, e).updates
  {
    var read, r, e' := h[e.read], h[e.read].requests[e.a.requestId], Last(h).entitlements[k];
    var c := Target(r, e.a);
    assert RowKept(read.entitlements[k], e');
    var i :| 0 <= i < |r.scopes| && r.scopes[i] == e'.scope;
    PlannedGrant(read, e.rows, c, e.a.grant, r.scopes, e.newIds, i);
    var u := Update(k, Merged(e'.life, e.a.grant), c.details);
    assert Merged(e'.life, e.a.grant) != e'.life ==> u in WantedUpdate(k, read.entitlements[k], e.a.grant, c.details);
  }

  lemma GrantedLife(h: History, e: Event, k: Id)
    requires e.Approving? && Possible(h, e) && Keeps(h[e.read], Last(h)) && Fresh(h, e)
    requires k in Last(h).entitlements && Grants(h, e, k)
    ensures k in After(h, e).entitlements
    ensures After(h, e).entitlements[k].life == Merged(Last(h).entitlements[k].life, e.a.grant)
  {
    var a, d := Last(h), ApprovingDecision(h, e);
    var want := Update(k, Merged(a.entitlements[k].life, e.a.grant), e.a.details);
    var mid := InsertAll(a, d.inserts, d.requestId, e.s);
    InsertAllAt(a, d.inserts, d.requestId, e.s, k);
    forall u | u in d.updates && u.id == k ensures u == want { UpdatesForRow(h, e, k, u); }
    FoundRowIsUpdated(h, e, k);
    if want in d.updates { UpdateAllWrites(mid, d.updates, want); } else { UpdateAllAt(mid, d.updates, k); }
  }

  /** An approval joins its grant to the lifetime of a row it found, and to no other. */
  lemma ApprovedLife(h: History, e: Event, k: Id)
    requires e.Approving? && Possible(h, e) && GoodHistory(h) && Fresh(h, e) && k in Last(h).entitlements
    ensures k in After(h, e).entitlements
    ensures After(h, e).entitlements[k].life
         == if Grants(h, e, k) then Merged(Last(h).entitlements[k].life, e.a.grant) else Last(h).entitlements[k].life
  {
    var a, d := Last(h), ApprovingDecision(h, e);
    assert Keeps(h[e.read], a);
    if Grants(h, e, k) {
      GrantedLife(h, e, k);
    } else if Approve(a, d, e.s).Some? {
      ApprovingRowFollows(h, e, k);
      ApproveKeeps(a, d, e.s);
      assert RowKept(a.entitlements[k], After(h, e).entitlements[k]);
      if After(h, e).entitlements[k] != a.entitlements[k] {
        ChangedRowIsWanted(h, e, k);
        assert false;
      }
    }
  }

  /** The grants of the approvals that created or found the entitlement, in order. */
  ghost function GrantsOf(h: seq<Db>, es: seq<Event>, k: Id): seq<Lifetime>
    requires |h| == |es| + 1
    decreases |es|
  {
    if es == [] then []
    else
      var n := |es| - 1;
      GrantsOf(h[..n + 1], es[..n], k) + (if Grants(h[..n + 1], es[n], k) then [es[n].a.grant] else [])
  }

  lemma MergedAllAppend(current: Lifetime, xs: seq<Lifetime>, x: Lifetime)
    ensures MergedAll(current, xs + [x]) == Merged(MergedAll(current, xs), x)
    decreases |xs|
  {
    if xs == [] {
      assert [] + [x] == [x];
    } else {
      assert (xs + [x])[0] == xs[0] && (xs + [x])[1..] == xs[1..] + [x];
      MergedAllAppend(Merged(current, xs[0]), xs[1..], x);
    }
  }

  lemma OtherLife(h: History, e: Event, k: Id)
    requires !e.Approving? && Possible(h, e)
    ensures k in After(h, e).entitlements <==> k in Last(h).entitlements
    ensures k in Last(h).entitlements ==> After(h, e).entitlements[k].life == Last(h).entitlements[k].life
  {
  }

  lemma CreatedLife(h: History, e: Event, k: Id)
    requires e.Approving? && Possible(h, e) && GoodHistory(h) && k !in Last(h).entitlements
    requires k in After(h, e).entitlements
    ensures Grants(h, e, k) && After(h, e).entitlements[k].life == e.a.grant
  {
    NewRowIsPlanned(h, e, k);
  }

  lemma LifeAfter(h: History, e: Event, k: Id)
    requires Possible(h, e) && GoodHistory(h) && Fresh(h, e)
    ensures k in After(h, e).entitlements <==> k in Last(h).entitlements || Grants(h, e, k)
    ensures k in After(h, e).entitlements ==>
              After(h, e).entitlements[k].life
              == if !Grants(h, e, k) then Last(h).entitlements[k].life
                 else if k in Last(h).entitlements then Merged(Last(h).entitlements[k].life, e.a.grant)
                 else e.a.grant
  {
    if !e.Approving? {
      OtherLife(h, e, k);
    } else if k in Last(h).entitlements {
      ApprovedLife(h, e, k);
    } else if k in After(h, e).entitlements {
      CreatedLife(h, e, k);
    }
  }

  predicate IsJoin(present: bool, life: Lifetime, grants: seq<Lifetime>) {
    if present then grants != [] && life == MergedAll(grants[0], grants[1..]) else grants == []
  }

  lemma JoinExtends(life: Lifetime, grants: seq<Lifetime>, grant: Lifetime)
    requires IsJoin(true, life, grants)
    ensures IsJoin(true, Merged(life, grant), grants + [grant])
  {
    assert (grants + [grant])[1..] == grants[1..] + [grant];
    MergedAllAppend(grants[0], grants[1..], grant);
  }

  function LifeOf(db: Db, k: Id): Lifetime {
    if k in db.entitlements then db.entitlements[k].life else Lifetime(Once, None)
  }

  /** In a fresh run an entitlement's lifetime is the join of the grants approved for it, hence the
      same in whatever order they came (EntitlementLifetimes.ApprovalOrderIsIrrelevant). */
  lemma LifetimeIsJoinOfGrants(h: History, es: seq<Event>, k: Id)
    requires IsFreshRun(h, es)
    ensures IsJoin(k in Last(h).entitlements, LifeOf(Last(h), k), GrantsOf(h, es, k))
  {
    forall g, fs, e, next {:trigger FreshSteps()(g, e, next), JoinSoFar(k)(g, fs)} |
      RunOf(g, fs, EMPTY, FreshSteps()) && JoinSoFar(k)(g, fs) && FreshSteps()(g, e, next)
      ensures JoinSoFar(k)(g + [next], fs + [e])
    {
      JoinStep(g, fs, e, next, k);
    }
    Induction(h, es, EMPTY, FreshSteps(), JoinSoFar(k));
  }

  ghost predicate JoinHolds(h: History, es: seq<Event>, k: Id)
    requires |h| == |es| + 1
  {
    IsJoin(k in Last(h).entitlements, LifeOf(Last(h), k), GrantsOf(h, es, k))
  }

  ghost function JoinSoFar(k: Id): (seq<Db>, seq<Event>) -> bool {
    (h: seq<Db>, es: seq<Event>) => |h| == |es| + 1 && JoinHolds(h, es, k)
  }

  lemma JoinStep(h: History, es: seq<Event>, e: Event, next: Db, k: Id)
    requires IsFreshRun(h, es) && |h| == |es| + 1 && JoinHolds(h, es, k) && FreshSteps()(h, e, next)
    ensures JoinHolds(h + [next], es + [e], k)
  {
    JoinAfterRun(h, es, e, next, k);
    JoinHoldsFrom(h, es, e, next, k);
  }

  lemma JoinHoldsFrom(h: History, es: seq<Event>, e: Event, next: Db, k: Id)
    requires |h| == |es| + 1
    requires IsJoin(k in next.entitlements, LifeOf(next, k), GrantsOf(h + [next], es + [e], k))
    ensures JoinHolds(h + [next], es + [e], k)
  {
    assert Last(h + [next]) == next;
  }

  lemma JoinAfterRun(h: History, es: seq<Event>, e: Event, next: Db, k: Id)
    requires IsFreshRun(h, es) && |h| == |es| + 1 && JoinHolds(h, es, k) && FreshSteps()(h, e, next)
    ensures IsJoin(k in next.entitlements, LifeOf(next, k), GrantsOf(h + [next], es + [e], k))
  {
    FreshRunIsRun(h, es);
    RunsAreSound(h, es);
    JoinAfter(h, e, k, GrantsOf(h, es, k));
    GrantsOfExtends(h, es, e, next, k);
  }

  lemma JoinAfter(h: History, e: Event, k: Id, grants: seq<Lifetime>)
    requires GoodHistory(h) && Possible(h, e) && Fresh(h, e)
    requires IsJoin(k in Last(h).entitlements, LifeOf(Last(h), k), grants)
    ensures var all := grants + (if Grants(h, e, k) then [e.a.grant] else []);
            IsJoin(k in After(h, e).entitlements, LifeOf(After(h, e), k), all)
  {
    LifeAfter(h, e, k);
    assert grants + [] == grants;
    if Grants(h, e, k) && k in Last(h).entitlements { JoinExtends(LifeOf(Last(h), k), grants, e.a.grant); }
  }

  lemma GrantsOfExtends(h: History, es: seq<Event>, e: Event, next: Db, k: Id)
    requires |h| == |es| + 1
    ensures GrantsOf(h + [next], es + [e], k)
         == GrantsOf(h, es, k) + (if Grants(h, e, k) then [e.a.grant] else [])
  {
    assert (h + [next])[..|es| + 1] == h && (es + [e])[..|es|] == es;
  }

  /** An approved request's entitlements last at least as long as was approved. */
  lemma ApprovalGrantsLifetime(h: History, e: Event, k: Id)
    requires e.Approving? && Possible(h, e) && GoodHistory(h) && Fresh(h, e) && Grants(h, e, k)
    ensures k in After(h, e).entitlements && NoLonger(e.a.grant, After(h, e).entitlements[k].life)
  {
    if k in Last(h).entitlements {
      ApprovedLife(h, e, k);
      assert RowSound(Last(h).entitlements[k]);
      MergedIsJoin(Last(h).entitlements[k].life, e.a.grant, e.a.grant);
    } else {
      CreatedLife(h, e, k);
    }
  }

  // ------------------------------------------------------------- one write, looked at closely

  /** A revocation misses exactly the tokens issued between its listing and its write: those stay
      live although they name the revoked entitlement. */
  lemma RevocationMissesLateLeases(read: Db, a: Db, id: Id, now: Time)
    requires Keeps(read, a)
    ensures LiveLeases(EndEntitlement(a, id, LiveLeases(read, id, now)), id, now)
         == LiveLeases(a, id, now) - read.leases.Keys
  {
    var b := EndEntitlement(a, id, LiveLeases(read, id, now));
    forall l ensures l in LiveLeases(b, id, now) <==> l in LiveLeases(a, id, now) && l !in read.leases {
      if l in read.leases && l in a.leases { assert LeaseKept(read.leases[l], a.leases[l]); }
    }
  }
}
