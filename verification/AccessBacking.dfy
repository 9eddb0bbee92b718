/** When a lease is no longer backed by the entitlements it names: exactly which events do it, and which
    runs never do. */
module AccessBacking {
  import opened Options
  import opened EntitlementLifetimes
  import opened AccessStore
  import opened AccessPlans
  import opened AccessEffects
  import opened AccessRuns
  import opened Runs
  import opened AccessSoundness
  import opened AccessOutcomes
  import opened AccessSafety
  import opened AccessTheorems

  /** Every lease is within its entitlements, over if one is revoked, and left none single-use and active. */
  ghost predicate AllBacked(db: Db) {
    forall l :: l in db.leases ==> LeaseSafe(db, db.leases[l])
  }

  // ------------------------------------------------------------------------ approving

  /** The update makes a row of the lease expire before the lease, or single-use again. */
  predicate Unbacks(u: Update, l: Lease) {
    && u.id in l.entitlements
    && (u.life.mode.Once? || (u.life.expiresAt.Some? && u.life.expiresAt.value < l.expiresAt))
  }

  /** An approval that is not rolled back rewrites a row so. */
  ghost predicate ApprovalUnbacks(h: History, e: Event)
    requires Behind(h, e)
  {
    && !RolledBack(h, e)
    && exists u, l :: u in ApprovingDecision(h, e).updates && l in Last(h).leases && Updatable(Last(h), u)
                      && Unbacks(u, Last(h).leases[l])
  }

  lemma RewrittenRowBacks(h: History, e: Event, l: Id, k: Id)
    requires Behind(h, e) && Approve(Last(h), ApprovingDecision(h, e), e.s).Some?
    requires l in Last(h).leases && LeaseSafe(Last(h), Last(h).leases[l]) && k in Last(h).leases[l].entitlements
    requires forall u :: u in ApprovingDecision(h, e).updates && Updatable(Last(h), u) ==> !Unbacks(u, Last(h).leases[l])
    ensures var b := Approve(Last(h), ApprovingDecision(h, e), e.s).value;
            k in b.entitlements ==> NamedSafe(b.entitlements[k], Last(h).leases[l], b.clock)
  {
    var a, d := Last(h), ApprovingDecision(h, e);
    ApproveRow(a, d, e.s, k);
    assert LeaseSound(a, a.leases[l]);
    assert SuppliedFits(a, a.requests[a.leases[l].request], k);
    assert NamedSafe(a.entitlements[k], a.leases[l], a.clock);
  }

  lemma ApprovalLeaseIff(h: History, e: Event, l: Id)
    requires Behind(h, e) && Approve(Last(h), ApprovingDecision(h, e), e.s).Some?
    requires l in Last(h).leases && LeaseSafe(Last(h), Last(h).leases[l])
    ensures var b := Approve(Last(h), ApprovingDecision(h, e), e.s).value;
            b.leases == Last(h).leases
            && (LeaseSafe(b, b.leases[l]) <==>
                  forall u :: u in ApprovingDecision(h, e).updates && Updatable(Last(h), u) ==>
                    !Unbacks(u, Last(h).leases[l]))
  {
    var a, d := Last(h), ApprovingDecision(h, e);
    var b, lease := Approve(a, d, e.s).value, a.leases[l];
    ApproveRow(a, d, e.s, 0);
    if u :| u in d.updates && Updatable(a, u) && Unbacks(u, lease) {
      UpdateIsWritten(h, e, u);
      assert !NamedSafe(b.entitlements[u.id], lease, b.clock);
    } else {
      forall k | k in lease.entitlements && k in b.entitlements ensures NamedSafe(b.entitlements[k], lease, b.clock) {
        RewrittenRowBacks(h, e, l, k);
      }
    }
  }

  lemma ApprovalBackingIff(h: History, e: Event)
    requires Behind(h, e) && AllBacked(Last(h))
    ensures !AllBacked(After(h, e)) <==> ApprovalUnbacks(h, e)
  {
    RolledBackIff(h, e);
    if !RolledBack(h, e) {
      forall l | l in Last(h).leases
        ensures After(h, e).leases == Last(h).leases
        ensures LeaseSafe(After(h, e), After(h, e).leases[l])
           <==> forall u :: u in ApprovingDecision(h, e).updates && Updatable(Last(h), u) ==> !Unbacks(u, Last(h).leases[l])
      {
        ApprovalLeaseIff(h, e, l);
      }
      ApproveRow(Last(h), ApprovingDecision(h, e), e.s, 0);
    }
  }

  // -------------------------------------------------------------------------- issuing

  /** The guard of the lease's insert holds. */
  predicate Issues(h: History, e: Event)
    requires e.Issue? && Possible(h, e)
  {
    Leasable(Last(h), IssuedLease(e), ContextOf(h[e.read].requests[e.request]), ScopesOf(h[e.read], e.rows), e.created, e.s)
  }

  /** The stored row is over before the lease, or single-use and not taken for single-use when it was read. */
  predicate Outrun(read: Entitlement, stored: Entitlement, expiresAt: Time) {
    || (stored.life.expiresAt.Some? && stored.life.expiresAt.value < expiresAt)
    || (stored.life.mode.Once? && !read.life.mode.Once?)
  }

  ghost predicate IssueUnbacks(h: History, e: Event)
    requires e.Issue? && Possible(h, e)
  {
    && Issues(h, e)
    && exists k :: k in e.rows && k in Last(h).entitlements
                   && Outrun(h[e.read].entitlements[k], Last(h).entitlements[k], e.expiresAt)
  }

  /** What an issue writes to the entitlements: a row is ended exactly when it was selected and was
      single-use as read, whatever lifetime is stored by then. */
  lemma IssueEndsIff(h: History, e: Event, k: Id)
    requires e.Issue? && Possible(h, e) && Issues(h, e) && k in Last(h).entitlements
    ensures k in After(h, e).entitlements
    ensures k in e.rows ==> Unended(Last(h).entitlements[k]) && k in h[e.read].entitlements
    ensures After(h, e).entitlements[k] != Last(h).entitlements[k]
       <==> k in e.rows && h[e.read].entitlements[k].life.mode.Once?
    ensures After(h, e).entitlements[k] != Last(h).entitlements[k] ==>
              After(h, e).entitlements[k] == Last(h).entitlements[k].(ended := Some(Consumed))
  {
    var read, a := h[e.read], Last(h);
    OnceIdsAre(read, e.rows, k);
    if k in e.rows { assert SuppliedHolds(a, ContextOf(read.requests[e.request]), ScopesOf(read, e.rows), e.created, k); }
  }

  lemma NewLeaseRowIff(h: History, e: Event, k: Id)
    requires e.Issue? && Possible(h, e) && Issues(h, e) && k in e.rows
    ensures k in Last(h).entitlements && k in After(h, e).entitlements
    ensures NamedSafe(After(h, e).entitlements[k], IssuedLease(e), After(h, e).clock)
       <==> !Outrun(h[e.read].entitlements[k], Last(h).entitlements[k], e.expiresAt)
  {
    assert SuppliedHolds(Last(h), ContextOf(h[e.read].requests[e.request]), ScopesOf(h[e.read], e.rows), e.created, k);
    IssueEndsIff(h, e, k);
  }

  lemma IssueBackingIff(h: History, e: Event)
    requires e.Issue? && Possible(h, e) && AllBacked(Last(h))
    ensures !AllBacked(After(h, e)) <==> IssueUnbacks(h, e)
  {
    if Issues(h, e) {
      var a, b, c := Last(h), After(h, e), ContextOf(h[e.read].requests[e.request]);
      var scopes, once := ScopesOf(h[e.read], e.rows), OnceIds(h[e.read], e.rows);
      assert b.leases == a.leases[e.lease := IssuedLease(e)];
      forall l | l in a.leases ensures LeaseSafe(b, b.leases[l]) {
        IssueKeepsLeasesSafe(a, e.lease, IssuedLease(e), c, scopes, once, e.created, e.s, l);
      }
      forall k | k in e.rows
        ensures k in a.entitlements && k in b.entitlements
        ensures NamedSafe(b.entitlements[k], IssuedLease(e), b.clock)
           <==> !Outrun(h[e.read].entitlements[k], a.entitlements[k], e.expiresAt)
      {
        NewLeaseRowIff(h, e, k);
      }
      assert AllBacked(b) <==> LeaseSafe(b, b.leases[e.lease]);
    }
  }

  // ----------------------------------------------------------------------- revocation

  predicate Live(l: Lease, clock: Time) {
    !l.revoked && clock < l.expiresAt
  }

  /** The row is still there to be revoked, and a live lease for it was not among those listed. */
  ghost predicate RevocationUnbacks(h: History, e: Event)
    requires e.Revoke? && Possible(h, e)
  {
    var a := Last(h);
    && e.id in a.entitlements && Unended(a.entitlements[e.id])
    && exists l :: l in a.leases && e.id in a.leases[l].entitlements && Live(a.leases[l], a.clock)
                   && l !in LiveLeases(h[e.read], e.id, e.now)
  }

  lemma RevocationLeaseIff(h: History, e: Event, l: Id)
    requires e.Revoke? && Possible(h, e) && l in Last(h).leases && LeaseSafe(Last(h), Last(h).leases[l])
    ensures l in After(h, e).leases
    ensures var a := Last(h);
            !LeaseSafe(After(h, e), After(h, e).leases[l])
            <==> (e.id in a.entitlements && Unended(a.entitlements[e.id]) && e.id in a.leases[l].entitlements
                  && Live(a.leases[l], a.clock) && l !in LiveLeases(h[e.read], e.id, e.now))
  {
    var a, b := Last(h), After(h, e);
    assert b.leases[l] == if l in LiveLeases(h[e.read], e.id, e.now) then a.leases[l].(revoked := true) else a.leases[l];
    forall k | k in a.leases[l].entitlements && k in b.entitlements && k != e.id
      ensures NamedSafe(b.entitlements[k], b.leases[l], b.clock)
    {
      assert NamedSafe(a.entitlements[k], a.leases[l], a.clock);
    }
    if e.id in a.leases[l].entitlements && e.id in a.entitlements {
      assert NamedSafe(a.entitlements[e.id], a.leases[l], a.clock);
      assert LeaseSafe(b, b.leases[l]) <==> NamedSafe(b.entitlements[e.id], b.leases[l], b.clock);
    }
  }

  lemma RevocationBackingIff(h: History, e: Event)
    requires e.Revoke? && Possible(h, e) && AllBacked(Last(h))
    ensures !AllBacked(After(h, e)) <==> RevocationUnbacks(h, e)
  {
    var a, b := Last(h), After(h, e);
    assert b.leases.Keys == a.leases.Keys;
    forall l | l in a.leases
      ensures l in b.leases
      ensures !LeaseSafe(b, b.leases[l])
         <==> (e.id in a.entitlements && Unended(a.entitlements[e.id]) && e.id in a.leases[l].entitlements
               && Live(a.leases[l], a.clock) && l !in LiveLeases(h[e.read], e.id, e.now))
    {
      RevocationLeaseIff(h, e, l);
    }
  }

  // ---------------------------------------------------------------------- every event

  /** The events that leave a lease unbacked, in terms of what is read and what is stored. */
  ghost predicate BreaksBacking(h: History, e: Event)
    requires Possible(h, e) && GoodHistory(h)
  {
    match e
    case Approving(_, _, _, _, _) => ApprovalUnbacks(h, e)
    case Issue(_, _, _, _, _, _, _, _) => IssueUnbacks(h, e)
    case Revoke(_, _, _) => RevocationUnbacks(h, e)
    case _ => false
  }

  lemma QuietEventsBack(h: History, e: Event)
    requires Possible(h, e) && AllBacked(Last(h)) && !e.Approving? && !e.Issue? && !e.Revoke?
    ensures AllBacked(After(h, e))
  {
    var a, b := Last(h), After(h, e);
    forall l | l in b.leases ensures LeaseSafe(b, b.leases[l]) {
      forall k | k in b.leases[l].entitlements && k in b.entitlements
        ensures NamedSafe(b.entitlements[k], b.leases[l], b.clock)
      {
        assert NamedSafe(a.entitlements[k], a.leases[l], a.clock);
      }
    }
  }

  /** Whatever was committed since it read, an event leaves some lease unbacked exactly when it is an approval
      that rewrites a row of a lease to end before it or to single use, an issue that takes effect on a row that
      is stored with an earlier end, or as single-use without having been read so, or a revocation that takes
      effect while a live lease of the row is missing from its listing. */
  lemma BackingBreaksIff(h: History, e: Event)
    requires Possible(h, e) && GoodHistory(h) && AllBacked(Last(h))
    ensures !AllBacked(After(h, e)) <==> BreaksBacking(h, e)
  {
    match e
    case Approving(_, _, _, _, _) =>
      GoodIsBehind(h, e);
      ApprovalBackingIff(h, e);
    case Issue(_, _, _, _, _, _, _, _) => IssueBackingIff(h, e);
    case Revoke(_, _, _) => RevocationBackingIff(h, e);
    case _ => QuietEventsBack(h, e);
  }

  // ------------------------------------------------------------------------- all runs

  ghost predicate Breaks(h: seq<Db>, e: Event) {
    h != [] && Possible(h, e) && GoodHistory(h) && BreaksBacking(h, e)
  }

  ghost predicate BreaksAt(h: History, es: seq<Event>, n: nat) {
    n < |es| && n < |h| && Breaks(h[..n + 1], es[n])
  }

  lemma StepBreaksIff(h: History, e: Event, next: Db)
    requires Possible(h, e) && GoodHistory(h) && AllBacked(Last(h)) && next == After(h, e)
    ensures !AllBacked(next) <==> Breaks(h, e)
  {
    BackingBreaksIff(h, e);
  }

  lemma PrefixIsGood(h: History, es: seq<Event>, n: nat)
    requires IsRun(h, es) && n < |h|
    ensures GoodHistory(h[..n + 1])
  {
    RunsAreSound(h, es);
  }

  lemma BackingStep(h: History, es: seq<Event>, n: nat)
    requires IsRun(h, es) && n < |es|
    ensures |h| == |es| + 1
    ensures AllBacked(h[n]) ==> (!AllBacked(h[n + 1]) <==> BreaksAt(h, es, n))
  {
    RunStep(h, es, n);
    PrefixIsGood(h, es, n);
    var g: History := h[..n + 1];
    assert Last(g) == h[n];
    if AllBacked(h[n]) { StepBreaksIff(g, es[n], h[n + 1]); }
  }

  lemma {:induction false} UnbrokenIsBacked(h: History, es: seq<Event>, i: nat)
    requires IsRun(h, es) && i < |h| && forall n :: 0 <= n < i ==> !BreaksAt(h, es, n)
    ensures AllBacked(h[i])
    decreases i
  {
    FirstState(h, es, EMPTY, Steps());
    if i > 0 {
      UnbrokenIsBacked(h, es, i - 1);
      BackingStep(h, es, i - 1);
    }
  }

  /** Every lease is backed in every state of a run exactly when none of its events is such a one. */
  lemma RunIsBackedIff(h: History, es: seq<Event>)
    requires IsRun(h, es)
    ensures |h| == |es| + 1
    ensures (forall i :: 0 <= i < |h| ==> AllBacked(h[i])) <==> forall n :: 0 <= n < |es| ==> !BreaksAt(h, es, n)
  {
    FirstState(h, es, EMPTY, Steps());
    if forall i :: 0 <= i < |h| ==> AllBacked(h[i]) {
      forall n | 0 <= n < |es| ensures !BreaksAt(h, es, n) {
        BackingStep(h, es, n);
        assert AllBacked(h[n]) && AllBacked(h[n + 1]);
      }
    }
    if forall n :: 0 <= n < |es| ==> !BreaksAt(h, es, n) {
      forall i | 0 <= i < |h| ensures AllBacked(h[i]) { UnbrokenIsBacked(h, es, i); }
    }
  }

  /** Until such an event, a live token is backed by every entitlement it names: none revoked, none expiring
      earlier, none still single-use. */
  lemma LiveTokenIsBacked(h: History, es: seq<Event>, i: nat, l: Id, k: Id)
    requires IsRun(h, es) && i < |h| && forall n :: 0 <= n < i ==> !BreaksAt(h, es, n)
    requires l in h[i].leases && k in h[i].leases[l].entitlements
    ensures k in h[i].entitlements
    ensures var e, lease := h[i].entitlements[k], h[i].leases[l];
            && (e.life.expiresAt.Some? ==> lease.expiresAt <= e.life.expiresAt.value)
            && (Live(lease, h[i].clock) ==> e.ended != Some(Revoked))
            && (Unended(e) ==> !e.life.mode.Once?)
  {
    UnbrokenIsBacked(h, es, i);
    RunsAreSound(h, es);
    var lease := h[i].leases[l];
    assert LeaseSound(h[i], lease);
    assert SuppliedFits(h[i], h[i].requests[lease.request], k);
    assert NamedSafe(h[i].entitlements[k], lease, h[i].clock);
  }

  /** Fresh runs, hence those of atomic calls, have no such event. */
  lemma FreshRunsAreBacked(h: History, es: seq<Event>, n: nat)
    requires IsFreshRun(h, es)
    ensures !BreaksAt(h, es, n)
  {
    FreshRunsAreSafe(h, es);
    FreshRunIsRun(h, es);
    if n < |es| {
      BackingStep(h, es, n);
      assert Safe(h[n]) && Safe(h[n + 1]);
    }
  }

  // --------------------------------------------------------- which tokens survive, over a run

  /** The event revokes row k, which was not ended. */
  predicate RevokesAt(h: seq<Db>, es: seq<Event>, n: nat, k: Id) {
    && n < |es| && n < |h| && es[n].Revoke? && es[n].id == k && es[n].read <= n
    && k in h[n].entitlements && Unended(h[n].entitlements[k])
  }

  /** Only a revocation revokes. */
  lemma RevokedBy(h: History, e: Event, k: Id)
    requires Possible(h, e) && GoodHistory(h) && k in After(h, e).entitlements
    requires After(h, e).entitlements[k].ended == Some(Revoked)
    requires !(k in Last(h).entitlements && Last(h).entitlements[k].ended == Some(Revoked))
    ensures e.Revoke? && e.id == k && k in Last(h).entitlements && Unended(Last(h).entitlements[k])
  {
    match e
    case Approving(_, _, _, _, _) => ApprovalRevokesNothing(h, e, k);
    case Issue(_, _, _, _, _, _, _, _) => IssueRevokesNothing(h, e, k);
    case Revoke(_, _, _) =>
    case _ =>
  }

  lemma IssueRevokesNothing(h: History, e: Event, k: Id)
    requires e.Issue? && Possible(h, e) && k in After(h, e).entitlements
    requires After(h, e).entitlements[k].ended == Some(Revoked)
    ensures k in Last(h).entitlements && Last(h).entitlements[k].ended == Some(Revoked)
  {
    if Issues(h, e) {
      assert k in Last(h).entitlements;
      IssueEndsIff(h, e, k);
    }
  }

  lemma ApprovalRevokesNothing(h: History, e: Event, k: Id)
    requires e.Approving? && Possible(h, e) && GoodHistory(h) && k in After(h, e).entitlements
    requires After(h, e).entitlements[k].ended == Some(Revoked)
    ensures k in Last(h).entitlements && Last(h).entitlements[k].ended == Some(Revoked)
  {
    if Approve(Last(h), ApprovingDecision(h, e), e.s).Some? {
      ApproveRow(Last(h), ApprovingDecision(h, e), e.s, k);
      if k !in Last(h).entitlements { NewRowIsPlanned(h, e, k); }
    }
  }

  predicate IsRevoked(db: Db, k: Id) {
    k in db.entitlements && db.entitlements[k].ended == Some(Revoked)
  }

  lemma RevokingStep(h: History, es: seq<Event>, n: nat, k: Id)
    requires IsRun(h, es) && n < |es| == |h| - 1 && IsRevoked(h[n + 1], k) && !IsRevoked(h[n], k)
    ensures RevokesAt(h, es, n, k)
  {
    RunStep(h, es, n);
    PrefixIsGood(h, es, n);
    RevokedBy(h[..n + 1], es[n], k);
  }

  /** A revoked row was revoked by one event of the run. */
  lemma {:induction false} RevocationOf(h: History, es: seq<Event>, i: nat, k: Id) returns (n: nat)
    requires IsRun(h, es) && i < |h| && IsRevoked(h[i], k)
    ensures n < i && RevokesAt(h, es, n, k)
    decreases i
  {
    FirstState(h, es, EMPTY, Steps());
    if IsRevoked(h[i - 1], k) {
      n := RevocationOf(h, es, i - 1, k);
    } else {
      RevokingStep(h, es, i - 1, k);
      n := i - 1;
    }
  }

  /** The lease was issued after the revocation listed the leases and before it wrote. */
  predicate IssuedMeanwhile(h: seq<Db>, es: seq<Event>, n: nat, l: Id) {
    n < |es| && n < |h| && es[n].Revoke? && es[n].read <= n && l !in h[es[n].read].leases && l in h[n].leases
  }

  lemma AfterRevocation(h: History, es: seq<Event>, n: nat, k: Id)
    requires IsRun(h, es) && RevokesAt(h, es, n, k)
    ensures |h| == |es| + 1 && IsRevoked(h[n + 1], k)
    ensures h[n + 1].leases == RevokeLeases(h[n], LiveLeases(h[es[n].read], k, es[n].now)) && es[n].now <= h[n].clock
  {
    RunStep(h, es, n);
  }

  /** A lease that was there to be listed is not live after the write. */
  lemma ListedIsOver(read: Db, a: Db, b: Db, later: Db, k: Id, now: Time, l: Id)
    requires Keeps(read, a) && Keeps(b, later) && now <= a.clock <= b.clock
    requires b.leases == RevokeLeases(a, LiveLeases(read, k, now))
    requires l in read.leases && k in read.leases[l].entitlements
    ensures l in later.leases && !Live(later.leases[l], later.clock)
  {
    assert LeaseKept(read.leases[l], a.leases[l]) && LeaseKept(b.leases[l], later.leases[l]);
    if !read.leases[l].revoked && now < read.leases[l].expiresAt { assert l in LiveLeases(read, k, now); }
  }

  lemma SurvivorIsLate(h: History, es: seq<Event>, i: nat, l: Id, n: nat, k: Id)
    requires IsRun(h, es) && n < i < |h| && l in h[i].leases && k in h[i].leases[l].entitlements
    requires Live(h[i].leases[l], h[i].clock) && RevokesAt(h, es, n, k)
    ensures IssuedMeanwhile(h, es, n, l)
  {
    AfterRevocation(h, es, n, k);
    EndedGainsNoLease(h, es, n + 1, i, k, l);
    KeptBetween(h, es, es[n].read, n);
    KeptBetween(h, es, es[n].read, i);
    KeptBetween(h, es, n, n + 1);
    KeptBetween(h, es, n + 1, i);
    if l in h[es[n].read].leases { ListedIsOver(h[es[n].read], h[n], h[n + 1], h[i], k, es[n].now, l); }
  }

  /** In every run, a live lease names a revoked entitlement exactly when it was issued between the listing
      and the write of the revocation that ended it. */
  lemma LiveOnRevokedIff(h: History, es: seq<Event>, i: nat, l: Id, k: Id)
    requires IsRun(h, es) && i < |h| && l in h[i].leases && k in h[i].leases[l].entitlements
    requires Live(h[i].leases[l], h[i].clock)
    ensures IsRevoked(h[i], k)
       <==> exists n :: 0 <= n < i && RevokesAt(h, es, n, k) && IssuedMeanwhile(h, es, n, l)
  {
    if IsRevoked(h[i], k) {
      var n := RevocationOf(h, es, i, k);
      SurvivorIsLate(h, es, i, l, n, k);
    }
    if n :| 0 <= n < i && RevokesAt(h, es, n, k) && IssuedMeanwhile(h, es, n, l) {
      AfterRevocation(h, es, n, k);
      RunsAreSound(h, es);
      assert Keeps(h[n + 1], h[i]) && RowKept(h[n + 1].entitlements[k], h[i].entitlements[k]);
    }
  }
}
