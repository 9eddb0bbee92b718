/** What holds in every run, whatever commits between a use case's reads and its write. */
module AccessSoundness {
  import opened Options
  import opened EntitlementLifetimes
  import opened AccessStore
  import opened AccessPlans
  import opened AccessEffects
  import opened AccessRuns
  import opened Sequences
  import opened Runs

  // ------------------------------------------------------------------------ approving

  lemma ApproveRow(a: Db, d: Decision, s: Surroundings, k: Id)
    requires Approve(a, d, s).Some?
    ensures var mid, b := InsertAll(a, d.inserts, d.requestId, s), Approve(a, d, s).value;
            && b.leases == a.leases && b.clock == a.clock
            && (k in b.entitlements <==> k in mid.entitlements)
            && (k in mid.entitlements ==> UpdatedBy(mid.entitlements[k], b.entitlements[k], k, d.updates))
            && (k in a.entitlements ==> k in mid.entitlements && mid.entitlements[k] == a.entitlements[k])
            && (k in mid.entitlements && k !in a.entitlements ==> (k, mid.entitlements[k]) in d.inserts)
  {
    InsertAllAt(a, d.inserts, d.requestId, s, k);
    UpdateAllAt(InsertAll(a, d.inserts, d.requestId, s), d.updates, k);
  }

  /** The requests after an approval: unchanged, but for the request itself when it is decided. */
  lemma ApproveRequests(a: Db, d: Decision, s: Surroundings)
    requires Approve(a, d, s).Some?
    ensures var b := Approve(a, d, s).value;
            || b.requests == a.requests
            || (&& d.requestId in a.requests && a.requests[d.requestId].status == Pending
                && b.requests == a.requests[d.requestId := a.requests[d.requestId].(
                     status := Approved, approved := d.approved, connection := d.connection, details := d.details)]
                && |d.approved| == |a.requests[d.requestId].scopes|
                && forall g :: g in d.approved ==> GrantHolds(b, a.requests[d.requestId], d.connection, g))
  {
    var mid := InsertAll(a, d.inserts, d.requestId, s);
    InsertAllAt(a, d.inserts, d.requestId, s, 0);
    UpdateAllAt(mid, d.updates, 0);
    var b', b := UpdateAll(mid, d.updates).value, Approve(a, d, s).value;
    assert b'.requests == a.requests && b.entitlements == b'.entitlements;
    forall g | g in d.approved && Decidable(b', d, s) ensures GrantHolds(b, a.requests[d.requestId], d.connection, g) {
      assert GrantHolds(b', b'.requests[d.requestId], d.connection, g);
    }
  }

  lemma ApproveKeeps(a: Db, d: Decision, s: Surroundings)
    requires Approve(a, d, s).Some?
    ensures Keeps(a, Approve(a, d, s).value)
  {
    var b := Approve(a, d, s).value;
    forall k | k in a.entitlements ensures k in b.entitlements && RowKept(a.entitlements[k], b.entitlements[k]) {
      ApproveRow(a, d, s, k);
    }
    ApproveRow(a, d, s, 0);
    ApproveRequests(a, d, s);
  }

  lemma ApproveSlots(a: Db, d: Decision, s: Surroundings)
    requires Approve(a, d, s).Some? && SlotsUnique(a)
    ensures SlotsUnique(Approve(a, d, s).value)
  {
    InsertAllSlots(a, d.inserts, d.requestId, s);
    UpdateAllSlots(InsertAll(a, d.inserts, d.requestId, s), d.updates);
  }

  lemma ApprovingRowSound(h: History, e: Event, k: Id)
    requires e.Approving? && Possible(h, e) && Keeps(h[e.read], Last(h)) && Sound(h[e.read]) && Sound(Last(h))
    requires Approve(Last(h), ApprovingDecision(h, e), e.s).Some?
    ensures var b := Approve(Last(h), ApprovingDecision(h, e), e.s).value;
            k in b.entitlements ==> RowSound(b.entitlements[k])
  {
    var a, d, r := Last(h), ApprovingDecision(h, e), h[e.read].requests[e.a.requestId];
    var c := Target(r, e.a);
    ApproveRow(a, d, e.s, k);
    var mid, b := InsertAll(a, d.inserts, d.requestId, e.s), Approve(a, d, e.s).value;
    if k in b.entitlements {
      if k !in a.entitlements {
        PlannedInsert(h[e.read], e.rows, c, e.a.grant, r.scopes, e.newIds, (k, mid.entitlements[k]));
      }
      assert RowSound(mid.entitlements[k]);
      if b.entitlements[k] != mid.entitlements[k] {
        var u :| u in d.updates && u.id == k && b.entitlements[k] == mid.entitlements[k].(life := u.life, hash := u.hash);
        PlannedUpdate(h[e.read], e.rows, c, e.a.grant, r.scopes, e.newIds, u);
        assert k in h[e.read].entitlements && RowKept(h[e.read].entitlements[k], a.entitlements[k]);
        MergedIsJoin(h[e.read].entitlements[k].life, e.a.grant, e.a.grant);
      }
    }
  }

  /** If the request is decided, its k-th entitlement is one for its k-th scope in its context. */
  lemma DecidedGrantFits(h: History, e: Event, k: nat)
    requires e.Approving? && Possible(h, e) && Keeps(h[e.read], Last(h)) && Sound(Last(h))
    requires Approve(Last(h), ApprovingDecision(h, e), e.s).Some?
    requires var b := Approve(Last(h), ApprovingDecision(h, e), e.s).value;
             e.a.requestId in b.requests && b.requests[e.a.requestId] != Last(h).requests[e.a.requestId]
    requires k < |h[e.read].requests[e.a.requestId].scopes|
    ensures var b := Approve(Last(h), ApprovingDecision(h, e), e.s).value;
            var q := b.requests[e.a.requestId];
            |q.approved| == |q.scopes| == |h[e.read].requests[e.a.requestId].scopes| && GrantFits(b, q, k)
  {
    var a, d, r := Last(h), ApprovingDecision(h, e), h[e.read].requests[e.a.requestId];
    var b, c := Approve(a, d, e.s).value, Target(r, e.a);
    ApproveRequests(a, d, e.s);
    PlannedGrant(h[e.read], e.rows, c, e.a.grant, r.scopes, e.newIds, k);
    var id := d.approved[k].1;
    assert d.approved[k] in d.approved && GrantHolds(b, a.requests[e.a.requestId], d.connection, d.approved[k]);
    ApproveRow(a, d, e.s, id);
    var current := FindCurrent(h[e.read], e.rows, c, r.scopes[k]);
    if current.Some? {
      assert RowKept(h[e.read].entitlements[id], a.entitlements[id]);
    } else {
      assert id in e.newIds && id !in a.entitlements;
      var mid := InsertAll(a, d.inserts, d.requestId, e.s);
      PlannedInsert(h[e.read], e.rows, c, e.a.grant, r.scopes, e.newIds, (id, mid.entitlements[id]));
    }
  }

  lemma DecidedRequestSound(h: History, e: Event)
    requires e.Approving? && Possible(h, e) && Keeps(h[e.read], Last(h)) && Sound(Last(h))
    requires Approve(Last(h), ApprovingDecision(h, e), e.s).Some?
    requires var b := Approve(Last(h), ApprovingDecision(h, e), e.s).value;
             e.a.requestId in b.requests && b.requests[e.a.requestId] != Last(h).requests[e.a.requestId]
    ensures var b := Approve(Last(h), ApprovingDecision(h, e), e.s).value; RequestSound(b, b.requests[e.a.requestId])
  {
    var a, b := Last(h), Approve(Last(h), ApprovingDecision(h, e), e.s).value;
    ApproveRequests(a, ApprovingDecision(h, e), e.s);
    var r, q := a.requests[e.a.requestId], b.requests[e.a.requestId];
    assert RequestSound(a, r) && RequestKept(h[e.read].requests[e.a.requestId], r);
    forall k | 0 <= k < |q.scopes| ensures |q.approved| == |q.scopes| && GrantFits(b, q, k) { DecidedGrantFits(h, e, k); }
  }

  lemma ApprovingRequestSound(h: History, e: Event, q: Id)
    requires e.Approving? && Possible(h, e) && Keeps(h[e.read], Last(h)) && Sound(Last(h))
    requires Approve(Last(h), ApprovingDecision(h, e), e.s).Some?
    ensures var b := Approve(Last(h), ApprovingDecision(h, e), e.s).value;
            q in b.requests ==> RequestSound(b, b.requests[q])
  {
    var a, d := Last(h), ApprovingDecision(h, e);
    var b := Approve(a, d, e.s).value;
    ApproveRequests(a, d, e.s);
    if q in b.requests {
      if b.requests[q] == a.requests[q] {
        ApproveKeeps(a, d, e.s);
        RequestStaysSound(a, b, a.requests[q]);
      } else {
        DecidedRequestSound(h, e);
      }
    }
  }

  lemma ApproveLeaseSound(a: Db, d: Decision, s: Surroundings, l: Id)
    requires Approve(a, d, s).Some? && Sound(a)
    ensures var b := Approve(a, d, s).value; l in b.leases ==> LeaseSound(b, b.leases[l])
  {
    var b := Approve(a, d, s).value;
    ApproveRow(a, d, s, 0);
    if l in b.leases {
      ApproveKeeps(a, d, s);
      LeaseStaysSound(a, b, a.leases[l]);
    }
  }

  lemma ApprovingSound(h: History, e: Event)
    requires e.Approving? && Possible(h, e) && Keeps(h[e.read], Last(h)) && Sound(h[e.read]) && Sound(Last(h))
    ensures Keeps(Last(h), After(h, e)) && Sound(After(h, e))
  {
    var a, d := Last(h), ApprovingDecision(h, e);
    if Approve(a, d, e.s).Some? {
      var b := Approve(a, d, e.s).value;
      ApproveKeeps(a, d, e.s);
      ApproveSlots(a, d, e.s);
      forall k | k in b.entitlements ensures RowSound(b.entitlements[k]) { ApprovingRowSound(h, e, k); }
      forall q | q in b.requests ensures RequestSound(b, b.requests[q]) { ApprovingRequestSound(h, e, q); }
      forall l | l in b.leases ensures LeaseSound(b, b.leases[l]) { ApproveLeaseSound(a, d, e.s, l); }
    } else {
      KeepsReflexive(a);
    }
  }

  // ----------------------------------------------------------------- the other events

  /** A write that keeps rows, slots and requests, and only adds sound requests and leases. */
  lemma SoundAfter(a: Db, b: Db)
    requires Sound(a) && Keeps(a, b) && SlotsUnique(b)
    requires forall k :: k in b.entitlements ==> k in a.entitlements && b.entitlements[k].life == a.entitlements[k].life
                                                 && b.entitlements[k].hash == a.entitlements[k].hash
    requires forall q :: q in b.requests ==>
               (q in a.requests && b.requests[q] == a.requests[q]) || RequestSound(b, b.requests[q])
    requires forall l :: l in b.leases ==>
               (l in a.leases && LeaseKept(a.leases[l], b.leases[l])) || LeaseSound(b, b.leases[l])
    ensures Sound(b)
  {
    forall k | k in b.entitlements ensures RowSound(b.entitlements[k]) {
      assert RowSound(a.entitlements[k]) && RowKept(a.entitlements[k], b.entitlements[k]);
    }
    forall q | q in b.requests ensures RequestSound(b, b.requests[q]) {
      if q in a.requests { RequestStaysSound(a, b, a.requests[q]); }
    }
    forall l | l in b.leases ensures LeaseSound(b, b.leases[l]) {
      if l in a.leases && LeaseKept(a.leases[l], b.leases[l]) { LeaseStaysSound(a, b, a.leases[l]); }
    }
  }

  /** Ending rows cannot create a second active row for a slot. */
  lemma EndingKeepsSlots(a: Db, b: Db)
    requires SlotsUnique(a)
    requires forall k :: k in b.entitlements ==>
               k in a.entitlements && (b.entitlements[k] == a.entitlements[k] || !Unended(b.entitlements[k]))
    ensures SlotsUnique(b)
  {
  }

  lemma AskedRequestSound(h: History, e: Event)
    requires e.Ask? && Possible(h, e) && Keeps(h[e.read], Last(h))
    ensures RequestSound(Last(h), NewRequest(h[e.read], e))
  {
    var r, once := NewRequest(h[e.read], e), Lifetime(Once, None);
    if r.status == Approved {
      PlannedGrant(h[e.read], e.rows, e.c, once, e.scopes, e.scopes, 0);
      forall k | 0 <= k < |r.scopes| ensures GrantFits(Last(h), r, k) {
        PlannedGrant(h[e.read], e.rows, e.c, once, e.scopes, e.scopes, k);
        var id := r.approved[k].1;
        assert id in h[e.read].entitlements && RowKept(h[e.read].entitlements[id], Last(h).entitlements[id]);
      }
    }
  }

  lemma InsertRequestKeeps(a: Db, id: Id, r: Request, s: Surroundings)
    ensures Keeps(a, InsertRequest(a, id, r, s))
  {
  }

  lemma InsertRequestSound(a: Db, id: Id, r: Request, s: Surroundings)
    requires Sound(a) && RequestSound(a, r)
    ensures Sound(InsertRequest(a, id, r, s))
  {
    var b := InsertRequest(a, id, r, s);
    InsertRequestKeeps(a, id, r, s);
    RequestStaysSound(a, b, r);
    SoundAfter(a, b);
  }

  lemma IssuedLeaseSound(h: History, e: Event)
    requires e.Issue? && Possible(h, e) && Keeps(h[e.read], Last(h)) && Sound(Last(h))
    requires After(h, e) != Last(h)
    ensures LeaseSound(Last(h), IssuedLease(e))
  {
    var a, q := Last(h), h[e.read].requests[e.request];
    assert RequestKept(q, a.requests[e.request]);
    forall id | id in e.rows ensures SuppliedFits(a, a.requests[e.request], id) {
      assert SuppliedHolds(a, ContextOf(q), ScopesOf(h[e.read], e.rows), e.created, id);
      assert RowSound(a.entitlements[id]);
    }
  }

  lemma IssueLeaseKeeps(
      a: Db, id: Id, l: Lease, c: Context, scopes: seq<Scope>, consume: seq<Id>, created: Time, s: Surroundings)
    ensures Keeps(a, IssueLease(a, id, l, c, scopes, consume, created, s))
  {
  }

  /** The columns soundness looks at are the same. */
  lemma SameGrantsSound(b: Db, r: Request, q: Request)
    requires RequestSound(b, r) && (r.status == Approved || r.status == Spent)
    requires q == r.(status := q.status)
    ensures RequestSound(b, q)
  {
    forall k | 0 <= k < |q.scopes| ensures GrantFits(b, q, k) { assert GrantFits(b, r, k); }
  }

  lemma IssueLeaseSound(
      a: Db, id: Id, l: Lease, c: Context, scopes: seq<Scope>, consume: seq<Id>, created: Time, s: Surroundings)
    requires Sound(a)
    requires var b := IssueLease(a, id, l, c, scopes, consume, created, s); b != a ==> LeaseSound(a, l)
    ensures Sound(IssueLease(a, id, l, c, scopes, consume, created, s))
  {
    var b := IssueLease(a, id, l, c, scopes, consume, created, s);
    if b != a {
      IssueLeaseKeeps(a, id, l, c, scopes, consume, created, s);
      EndingKeepsSlots(a, b);
      LeaseStaysSound(a, b, l);
      RequestStaysSound(a, b, a.requests[l.request]);
      SameGrantsSound(b, a.requests[l.request], b.requests[l.request]);
      SoundAfter(a, b);
    }
  }

  lemma EndKeeps(a: Db, id: Id, leases: set<Id>)
    ensures Keeps(a, EndEntitlement(a, id, leases))
  {
  }

  lemma EndSound(a: Db, id: Id, leases: set<Id>)
    requires Sound(a)
    ensures Sound(EndEntitlement(a, id, leases))
  {
    EndKeeps(a, id, leases);
    EndingKeepsSlots(a, EndEntitlement(a, id, leases));
    SoundAfter(a, EndEntitlement(a, id, leases));
  }

  lemma RevokeLeasesSound(a: Db, leases: set<Id>)
    requires Sound(a)
    ensures Keeps(a, a.(leases := RevokeLeases(a, leases))) && Sound(a.(leases := RevokeLeases(a, leases)))
  {
    SoundAfter(a, a.(leases := RevokeLeases(a, leases)));
  }

  lemma DenyKeeps(a: Db, id: Id)
    ensures Keeps(a, Deny(a, id))
  {
  }

  lemma DenySound(a: Db, id: Id)
    requires Sound(a)
    ensures Keeps(a, Deny(a, id)) && Sound(Deny(a, id))
  {
    DenyKeeps(a, id);
    SoundAfter(a, Deny(a, id));
  }

  lemma TickSound(a: Db, time: Time)
    requires Sound(a) && a.clock <= time
    ensures Keeps(a, a.(clock := time)) && Sound(a.(clock := time))
  {
    SoundAfter(a, a.(clock := time));
  }

  /** Everything read is still there, at most further along, when the write comes. */
  ghost predicate GoodHistory(h: seq<Db>) {
    && (forall i :: 0 <= i < |h| ==> Sound(h[i]))
    && (forall i, j :: 0 <= i <= j < |h| ==> Keeps(h[i], h[j]))
  }

  lemma StepSound(h: History, e: Event)
    requires Possible(h, e) && GoodHistory(h)
    ensures Keeps(Last(h), After(h, e)) && Sound(After(h, e))
  {
    var a := Last(h);
    match e
    case Tick(time) => TickSound(a, time);
    case Ask(read, id, _, _, _, _, _, s) =>
      AskedRequestSound(h, e);
      InsertRequestKeeps(a, id, NewRequest(h[read], e), s);
      InsertRequestSound(a, id, NewRequest(h[read], e), s);
    case Approving(_, _, _, _, _) => ApprovingSound(h, e);
    case Denying(id) => DenySound(a, id);
    case Issue(_, _, _, _, _, _, _, _) => IssueSound(h, e);
    case Revoke(read, id, now) =>
      EndKeeps(a, id, LiveLeases(h[read], id, now));
      EndSound(a, id, LiveLeases(h[read], id, now));
    case RevokeLease(lease, now) => RevokeLeasesSound(a, {lease});
  }

  lemma IssueSound(h: History, e: Event)
    requires e.Issue? && Possible(h, e) && GoodHistory(h)
    ensures Keeps(Last(h), After(h, e)) && Sound(After(h, e))
  {
    var a, c := Last(h), ContextOf(h[e.read].requests[e.request]);
    var scopes, once := ScopesOf(h[e.read], e.rows), OnceIds(h[e.read], e.rows);
    IssueLeaseKeeps(a, e.lease, IssuedLease(e), c, scopes, once, e.created, e.s);
    if After(h, e) != a { IssuedLeaseSound(h, e); }
    IssueLeaseSound(a, e.lease, IssuedLease(e), c, scopes, once, e.created, e.s);
  }

  // -------------------------------------------------------------------------- all runs

  /** In every run and every state of it: one active entitlement for a slot, one entitlement for each
      scope of an approved request, leases that name only their request's entitlements; and nothing
      decided, ended or issued is ever undone. */
  lemma RunsAreSound(h: History, es: seq<Event>)
    requires IsRun(h, es)
    ensures GoodHistory(h)
  {
    EmptyIsGood();
    forall g, e, next {:trigger Steps()(g, e, next)} | g != [] && GoodHistory(g) && Steps()(g, e, next)
      ensures GoodHistory(g + [next])
    {
      GoodStep(g, e, next);
    }
    Induction(h, es, EMPTY, Steps(), AlwaysGood());
  }

  ghost function AlwaysGood(): (seq<Db>, seq<Event>) -> bool {
    (h: seq<Db>, es: seq<Event>) => h != [] && GoodHistory(h)
  }

  lemma EmptyIsGood()
    ensures GoodHistory([EMPTY])
  {
    KeepsReflexive(EMPTY);
  }

  lemma GoodStep(h: History, e: Event, next: Db)
    requires GoodHistory(h) && Steps()(h, e, next)
    ensures GoodHistory(h + [next])
  {
    StepSound(h, e);
    HistoryExtends(h, next);
  }

  lemma HistoryExtends(h: History, next: Db)
    requires GoodHistory(h) && Sound(next) && Keeps(Last(h), next)
    ensures GoodHistory(h + [next])
  {
    var g := h + [next];
    forall i, j | 0 <= i <= j < |g| ensures Keeps(g[i], g[j]) {
      if j < |h| {
        assert Keeps(h[i], h[j]);
      } else if i < |h| {
        assert Keeps(h[i], h[|h| - 1]);
        KeepsTransitive(h[i], Last(h), next);
      } else {
        KeepsReflexive(next);
      }
    }
  }

  lemma KeepsReflexive(a: Db)
    ensures Keeps(a, a)
  {
  }
}
