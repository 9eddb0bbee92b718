/** What the guards leave open: an approval can shorten a lifetime, and can leave two active rows for one
    use. Each exactly when; runs in which it happens are in AccessExamples. */
module AccessRaces {
  import opened Options
  import opened EntitlementLifetimes
  import opened AccessStore
  import opened AccessPlans
  import opened AccessEffects
  import opened AccessRuns
  import opened Sequences
  import opened AccessSoundness
  import opened AccessSafety
  import opened AccessOutcomes

  /** An approval that rewrites a row it found keeps that row's lifetime, as stored when it commits,
      exactly when that is no longer than what it read or than what it grants. */
  lemma RewriteKeepsLifetimeIff(h: History, e: Event, k: Id)
    requires e.Approving? && Possible(h, e) && GoodHistory(h)
    requires Approve(Last(h), ApprovingDecision(h, e), e.s).Some?
    requires k in h[e.read].entitlements && k in Last(h).entitlements && Unended(Last(h).entitlements[k])
    requires var r, f := h[e.read].requests[e.a.requestId], h[e.read].entitlements[k];
             && f.scope in r.scopes && FindCurrent(h[e.read], e.rows, Target(r, e.a), f.scope) == Some(k)
             && WantedUpdate(k, f, e.a.grant, e.a.details) != []
    ensures k in After(h, e).entitlements
    ensures NoLonger(Last(h).entitlements[k].life, After(h, e).entitlements[k].life)
       <==> (NoLonger(Last(h).entitlements[k].life, h[e.read].entitlements[k].life)
             || NoLonger(Last(h).entitlements[k].life, e.a.grant))
  {
    RewriteWrites(h, e, k);
    assert RowSound(h[e.read].entitlements[k]) && RowSound(Last(h).entitlements[k]);
    StaleMergeKeepsIff(h[e.read].entitlements[k].life, Last(h).entitlements[k].life, e.a.grant);
  }

  lemma RewriteWrites(h: History, e: Event, k: Id)
    requires e.Approving? && Possible(h, e) && Approve(Last(h), ApprovingDecision(h, e), e.s).Some?
    requires k in h[e.read].entitlements && k in Last(h).entitlements && Unended(Last(h).entitlements[k])
    requires var r, f := h[e.read].requests[e.a.requestId], h[e.read].entitlements[k];
             && f.scope in r.scopes && FindCurrent(h[e.read], e.rows, Target(r, e.a), f.scope) == Some(k)
             && WantedUpdate(k, f, e.a.grant, e.a.details) != []
    ensures k in After(h, e).entitlements
    ensures After(h, e).entitlements[k].life == Merged(h[e.read].entitlements[k].life, e.a.grant)
  {
    var read, a, d, r := h[e.read], Last(h), ApprovingDecision(h, e), h[e.read].requests[e.a.requestId];
    var c, f := Target(r, e.a), read.entitlements[k];
    var life := Merged(f.life, e.a.grant);
    InsertAllAt(a, d.inserts, d.requestId, e.s, k);
    var n :| 0 <= n < |r.scopes| && r.scopes[n] == f.scope;
    PlannedGrant(read, e.rows, c, e.a.grant, r.scopes, e.newIds, n);
    var want := Update(k, life, c.details);
    assert want in WantedUpdate(k, f, e.a.grant, c.details);
    forall u | u in d.updates && u.id == k ensures u == want {
      PlannedUpdate(read, e.rows, c, e.a.grant, r.scopes, e.newIds, u);
    }
    UpdateAllWrites(InsertAll(a, d.inserts, d.requestId, e.s), d.updates, want);
  }

  // ---------------------------------------------------------- two active rows for one use

  /** An active row of the approval's use that the approval did not find. */
  predicate Beside(h: History, e: Event, n: nat, k: Id)
    requires e.Approving? && e.read < |h| && e.a.requestId in h[e.read].requests && n < |ApprovalScopes(h, e)|
  {
    var a, c, scope := Last(h), ApprovalContext(h, e), ApprovalScopes(h, e)[n];
    && k in a.entitlements && Active(a.entitlements[k], a.clock) && InContext(a.entitlements[k], c)
    && a.entitlements[k].scope == scope && FindCurrent(h[e.read], e.rows, c, scope) != Some(k)
  }

  /** Both at once: a second active row of the use, and the approval's own row active. */
  ghost predicate SecondRow(h: History, e: Event)
    requires Behind(h, e)
  {
    exists n, k :: 0 <= n < |ApprovalScopes(h, e)| && Beside(h, e, n, k) && OwnRowActive(h, e, n)
  }

  ghost predicate Duplicates(h: History, e: Event)
    requires Behind(h, e)
  {
    !RolledBack(h, e) && SecondRow(h, e)
  }

  lemma OwnRowAfter(h: History, e: Event, n: nat)
    requires Behind(h, e) && Approve(Last(h), ApprovingDecision(h, e), e.s).Some? && n < |ApprovalScopes(h, e)|
    ensures var b, own := Approve(Last(h), ApprovingDecision(h, e), e.s).value, OwnRow(h, e, n);
            && ((own in b.entitlements && Active(b.entitlements[own], b.clock)) <==> OwnRowActive(h, e, n))
            && (own in b.entitlements ==>
                  InContext(b.entitlements[own], ApprovalContext(h, e)) && b.entitlements[own].scope == ApprovalScopes(h, e)[n])
  {
    if FindCurrent(h[e.read], e.rows, ApprovalContext(h, e), ApprovalScopes(h, e)[n]).Some? {
      FoundRowAfter(h, e, n);
    } else {
      NewRowAfter(h, e, n);
    }
  }

  lemma DuplicatesBreak(h: History, e: Event, n: nat, k: Id)
    requires Behind(h, e) && Approve(Last(h), ApprovingDecision(h, e), e.s).Some?
    requires n < |ApprovalScopes(h, e)| && Beside(h, e, n, k) && OwnRowActive(h, e, n)
    ensures !UsesUnique(Approve(Last(h), ApprovingDecision(h, e), e.s).value)
  {
    var a, b, own := Last(h), Approve(Last(h), ApprovingDecision(h, e), e.s).value, OwnRow(h, e, n);
    ApproveRow(a, ApprovingDecision(h, e), e.s, k);
    assert RequestSound(h[e.read], h[e.read].requests[e.a.requestId]);
    var m := OtherRowsStay(h, e, k);
    if FindCurrent(h[e.read], e.rows, ApprovalContext(h, e), ApprovalScopes(h, e)[n]).None? { NewRowAfter(h, e, n); }
    assert k != own && b.entitlements[k] == a.entitlements[k];
    OwnRowAfter(h, e, n);
    assert SameUse(b.entitlements[k], b.entitlements[own]);
  }

  /** A second active row beside one the approval touched is one it did not find. */
  lemma TouchedRowDuplicates(h: History, e: Event, n: nat, l: Id)
    requires Behind(h, e) && Approve(Last(h), ApprovingDecision(h, e), e.s).Some? && n < |ApprovalScopes(h, e)|
    requires var b, own := Approve(Last(h), ApprovingDecision(h, e), e.s).value, OwnRow(h, e, n);
             && own in b.entitlements && Active(b.entitlements[own], b.clock) && l in b.entitlements && l != own
             && Active(b.entitlements[l], b.clock) && SameUse(b.entitlements[own], b.entitlements[l])
    ensures Beside(h, e, n, l) && OwnRowActive(h, e, n)
  {
    var a, b := Last(h), Approve(Last(h), ApprovingDecision(h, e), e.s).value;
    OwnRowAfter(h, e, n);
    ApproveRow(a, ApprovingDecision(h, e), e.s, l);
    assert RequestSound(h[e.read], h[e.read].requests[e.a.requestId]);
    var m := OtherRowsStay(h, e, l);
    assert l in a.entitlements && b.entitlements[l] == a.entitlements[l];
  }

  lemma BrokenMeansDuplicates(h: History, e: Event, k: Id, l: Id)
    requires Behind(h, e) && Approve(Last(h), ApprovingDecision(h, e), e.s).Some? && UsesUnique(Last(h)) && k != l
    requires var b := Approve(Last(h), ApprovingDecision(h, e), e.s).value;
             && k in b.entitlements && l in b.entitlements && SameUse(b.entitlements[k], b.entitlements[l])
             && Active(b.entitlements[k], b.clock) && Active(b.entitlements[l], b.clock)
    ensures SecondRow(h, e)
  {
    var a, b := Last(h), Approve(Last(h), ApprovingDecision(h, e), e.s).value;
    ApproveRow(a, ApprovingDecision(h, e), e.s, k);
    var i := OtherRowsStay(h, e, k);
    var j := OtherRowsStay(h, e, l);
    if !(k in a.entitlements && b.entitlements[k] == a.entitlements[k]) {
      TouchedRowDuplicates(h, e, i, l);
    } else if !(l in a.entitlements && b.entitlements[l] == a.entitlements[l]) {
      TouchedRowDuplicates(h, e, j, k);
    }
  }

  lemma CommitBreaksIff(h: History, e: Event)
    requires Behind(h, e) && Approve(Last(h), ApprovingDecision(h, e), e.s).Some? && UsesUnique(Last(h))
    ensures !UsesUnique(Approve(Last(h), ApprovingDecision(h, e), e.s).value) <==> SecondRow(h, e)
  {
    var b := Approve(Last(h), ApprovingDecision(h, e), e.s).value;
    if SecondRow(h, e) {
      var n, k :| 0 <= n < |ApprovalScopes(h, e)| && Beside(h, e, n, k) && OwnRowActive(h, e, n);
      DuplicatesBreak(h, e, n, k);
    }
    if !UsesUnique(b) {
      var k, l :| k in b.entitlements && l in b.entitlements && Active(b.entitlements[k], b.clock)
                  && Active(b.entitlements[l], b.clock) && SameUse(b.entitlements[k], b.entitlements[l]) && k != l;
      BrokenMeansDuplicates(h, e, k, l);
    }
  }

  lemma ApprovalBreaksIff(h: History, e: Event)
    requires Behind(h, e) && UsesUnique(Last(h))
    ensures !UsesUnique(After(h, e)) <==> Duplicates(h, e)
  {
    RolledBackIff(h, e);
    if !RolledBack(h, e) { CommitBreaksIff(h, e); }
  }

  /** Whatever was committed since it read: an event leaves two active rows for one use exactly when it is an
      approval that goes through, its own row for a scope is active afterwards, and the use already has
      another active row, which it did not find. */
  lemma UniquenessBreaksIff(h: History, e: Event)
    requires Possible(h, e) && GoodHistory(h) && UsesUnique(Last(h))
    ensures e.Approving? ==> Behind(h, e)
    ensures !UsesUnique(After(h, e)) <==> e.Approving? && Duplicates(h, e)
  {
    if e.Approving? {
      GoodIsBehind(h, e);
      ApprovalBreaksIff(h, e);
    } else {
      OtherEventsKeepUses(h, e);
    }
  }

  lemma OtherEventsKeepUses(h: History, e: Event)
    requires Possible(h, e) && !e.Approving? && UsesUnique(Last(h))
    ensures UsesUnique(After(h, e))
  {
    EndingKeepsUses(Last(h), After(h, e));
  }
}
