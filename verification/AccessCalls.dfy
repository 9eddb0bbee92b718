/** What a use case asked the repository and was answered: the result a decision must give, and when
    it succeeds. */
module AccessCalls {
  import opened Options
  import opened EntitlementLifetimes
  import opened AccessStore
  import opened AccessPlans
  import opened AccessEffects
  import opened AccessRuns
  import opened Sequences
  import opened AccessSoundness
  import opened AccessOutcomes
  import opened AccessSafety
  import opened AccessRaces
  import opened AccessDecisions

  datatype Result =
    | Ok
    | NotFound
    | BadRequest
    | Conflict

  /** What a caller asked the repository and what the answer was: the rows it read, or the state its
      write met, the decision it handed over, the state the write left and the reported outcome. */
  datatype Call =
    | Read(db: Db)
    | Wrote(before: Db, d: Decision, s: Surroundings, after: Db, outcome: Option<Outcome>)

  /** The checks of the use case on what it has read. */
  ghost predicate Approvable(read: Db, a: Approval, rows: seq<Id>, clock: Time) {
    && a.requestId in read.requests && Valid(a.grant) && a.now <= clock
    && var r := read.requests[a.requestId];
    && r.status == Pending && a.now < r.expiresAt && IsListing(read, r.agent, a.now, rows)
    && (a.grant.expiresAt.Some? ==> a.now < a.grant.expiresAt.value)
  }

  // ------------------------------------------------------------- the calls of a decision

  /** The request is there to be decided. */
  predicate Waiting(db: Db, requestId: Id) {
    && requestId in db.requests && db.requests[requestId].status == Pending
    && db.clock < db.requests[requestId].expiresAt
  }

  predicate Decides(db: Db, requestId: Id, grant: Lifetime) {
    Waiting(db, requestId) && (grant.expiresAt.Some? ==> db.clock < grant.expiresAt.value)
  }

  predicate ApprovedIn(db: Db, requestId: Id) {
    requestId in db.requests && db.requests[requestId].status == Approved
  }

  /** None: the transaction was rolled back. */
  ghost function Reported(h: History, e: Event): Option<Outcome>
    requires e.Approving? && Possible(h, e)
  {
    var d := ApprovingDecision(h, e);
    if Approve(Last(h), d, e.s).None? then None else Some(ApprovalOutcome(Last(h), d, e.s))
  }

  ghost predicate AttemptWith(read: Db, a: Approval, s: Surroundings, c: Call, rows: seq<Id>, ids: seq<Id>)
    requires c.Wrote?
  {
    var h, e := [read, c.before], Approving(0, a, rows, ids, s);
    && Keeps(read, c.before) && Sound(read) && Sound(c.before)
    && Possible(h, e) && c.d == ApprovingDecision(h, e) && c.s == s && c.after == After(h, e)
    && c.outcome == Reported(h, e)
  }

  /** The call is the guarded write of the approval's plan from what was read. */
  ghost predicate Attempt(read: Db, a: Approval, s: Surroundings, c: Call)
    requires c.Wrote?
  {
    exists rows, ids :: AttemptWith(read, a, s, c, rows, ids)
  }

  /** The calls of a decision and the result it must give. Each write is the plan of this approval from the rows
      that were read before it, at their time. */
  ghost predicate Answers(calls: seq<Call>, a: Approval, s: Surroundings, retry: bool, result: Result)
    decreases retry, 1
  {
    && calls != [] && calls[0].Read?
    && if !Waiting(calls[0].db, a.requestId) then |calls| == 1 && result == NotFound
       else if !Decides(calls[0].db, a.requestId, a.grant) then |calls| == 1 && result == BadRequest
       else
         && |calls| >= 2 && calls[1].Wrote? && Attempt(calls[0].db, a.(now := calls[0].db.clock), s, calls[1])
         && match calls[1].outcome
            case None => |calls| == 2 && result == Conflict
            case Some(Granted) => |calls| == 2 && result == Ok
            case Some(EntitlementsChanged) => AnswersAgain(calls[2..], a, s, retry, result)
            case _ => |calls| == 2 && result == BadRequest
  }

  ghost predicate AnswersAgain(calls: seq<Call>, a: Approval, s: Surroundings, retry: bool, result: Result)
    decreases retry, 0
  {
    && calls != [] && calls[0].Read?
    && if ApprovedIn(calls[0].db, a.requestId) then |calls| == 1 && result == Ok
       else if !retry then |calls| == 1 && result == BadRequest
       else Answers(calls[1..], a, s, false, result)
  }

  /** Each call finds the state as the call before it left it. */
  predicate Undisturbed(calls: seq<Call>, db: Db, end: Db)
    decreases |calls|
  {
    if calls == [] then db == end
    else match calls[0]
      case Read(found) => found == db && Undisturbed(calls[1..], db, end)
      case Wrote(before, _, _, after, _) => before == db && Undisturbed(calls[1..], after, end)
  }

  lemma AnswersTo(read: Db, write: Call, a: Approval, s: Surroundings, retry: bool)
    requires write.Wrote? && Decides(read, a.requestId, a.grant) && write.outcome != Some(EntitlementsChanged)
    requires Attempt(read, a.(now := read.clock), s, write)
    ensures Answers([Read(read), write], a, s, retry,
                    if write.outcome.None? then Conflict else if write.outcome.value.Granted? then Ok else BadRequest)
  {
  }

  lemma AnswersAfter(read: Db, write: Call, more: seq<Call>, a: Approval, s: Surroundings, retry: bool, result: Result)
    requires write.Wrote? && Decides(read, a.requestId, a.grant) && write.outcome == Some(EntitlementsChanged)
    requires Attempt(read, a.(now := read.clock), s, write) && AnswersAgain(more, a, s, retry, result)
    ensures Answers([Read(read), write] + more, a, s, retry, result)
  {
    assert ([Read(read), write] + more)[2..] == more;
  }

  lemma AnswersOnceMore(found: Db, more: seq<Call>, a: Approval, s: Surroundings, result: Result)
    requires !ApprovedIn(found, a.requestId) && Answers(more, a, s, false, result)
    ensures AnswersAgain([Read(found)] + more, a, s, true, result)
  {
    assert ([Read(found)] + more)[1..] == more;
  }

  lemma TwoCalls(before: seq<Call>, read: Db, write: Call)
    requires write.Wrote?
    ensures before + [Read(read)] + [write] == before + [Read(read), write]
    ensures write.before == read ==> Undisturbed([Read(read), write], read, write.after)
  {
    var log := [Read(read), write];
    assert log[1..] == [write] && log[1..][1..] == [];
  }

  lemma {:induction false} UndisturbedBoth(log: seq<Call>, more: seq<Call>, start: Db, mid: Db, end: Db)
    requires Undisturbed(log, start, mid) && Undisturbed(more, mid, end)
    ensures Undisturbed(log + more, start, end)
    decreases |log|
  {
    if log == [] {
      assert log + more == more;
    } else {
      assert (log + more)[1..] == log[1..] + more;
      UndisturbedBoth(log[1..], more, if log[0].Read? then start else log[0].after, mid, end);
    }
  }

  /** The write made a pending request an approved one. */
  predicate Turns(c: Call, requestId: Id)
    requires c.Wrote?
  {
    && requestId in c.before.requests && c.before.requests[requestId].status.Pending?
    && ApprovedIn(c.after, requestId)
  }

  lemma ApproveStores(db: Db, d: Decision, s: Surroundings)
    requires Approve(db, d, s).Some?
    ensures var b := Approve(db, d, s).value;
            && b.clock == db.clock
            && (StoresDecision(db, d, s) ==>
                  d.requestId in db.requests && db.requests[d.requestId].status.Pending? && ApprovedIn(b, d.requestId))
            && (!StoresDecision(db, d, s) ==> b.requests == db.requests)
  {
    var mid := InsertAll(db, d.inserts, d.requestId, s);
    InsertAllAt(db, d.inserts, d.requestId, s, 0);
    UpdateAllAt(mid, d.updates, 0);
  }

  /** The approval makes the request approved exactly when it is reported granted. */
  lemma EventGrantsIff(h: History, e: Event)
    requires e.Approving? && Possible(h, e)
    ensures var b := After(h, e);
            && (Reported(h, e) == Some(Granted)
                <==> e.a.requestId in Last(h).requests && Last(h).requests[e.a.requestId].status.Pending?
                     && ApprovedIn(b, e.a.requestId))
            && (Reported(h, e) != Some(Granted) ==> b.requests == Last(h).requests)
            && b.clock == Last(h).clock
  {
    if Approve(Last(h), ApprovingDecision(h, e), e.s).Some? {
      OutcomeIsTruthful(h, e);
      ApproveStores(Last(h), ApprovingDecision(h, e), e.s);
    }
  }

  lemma AttemptWithGrantsIff(read: Db, a: Approval, s: Surroundings, c: Call, rows: seq<Id>, ids: seq<Id>)
    requires c.Wrote? && AttemptWith(read, a, s, c, rows, ids)
    ensures c.outcome == Some(Granted) <==> Turns(c, a.requestId)
    ensures c.outcome != Some(Granted) ==> c.after.requests == c.before.requests
    ensures c.after.clock == c.before.clock
  {
    var h, e := [read, c.before], Approving(0, a, rows, ids, s);
    EventGrantsIff(h, e);
  }

  lemma AttemptGrantsIff(read: Db, a: Approval, s: Surroundings, c: Call)
    requires c.Wrote? && Attempt(read, a, s, c)
    ensures c.outcome == Some(Granted) <==> Turns(c, a.requestId)
    ensures c.outcome != Some(Granted) ==> c.after.requests == c.before.requests
    ensures c.after.clock == c.before.clock
  {
    var rows, ids :| AttemptWith(read, a, s, c, rows, ids);
    AttemptWithGrantsIff(read, a, s, c, rows, ids);
  }

  /** At i a write of this decision made the request approved, or the read after a write that did not
      found it approved by someone else. */
  predicate ApprovedAt(calls: seq<Call>, requestId: Id, i: nat)
    requires i < |calls|
  {
    if calls[i].Wrote? then Turns(calls[i], requestId)
    else i > 0 && calls[i - 1].Wrote? && ApprovedIn(calls[i].db, requestId)
  }

  predicate Approves(calls: seq<Call>, requestId: Id) {
    exists i :: 0 <= i < |calls| && ApprovedAt(calls, requestId, i)
  }

  lemma ShortApprovesIff(calls: seq<Call>, requestId: Id)
    requires calls != [] && calls[0].Read?
    ensures |calls| == 1 ==> !Approves(calls, requestId)
    ensures |calls| == 2 && calls[1].Wrote? ==> (Approves(calls, requestId) <==> Turns(calls[1], requestId))
    ensures |calls| == 3 && calls[1].Wrote? && calls[2].Read? ==>
              (Approves(calls, requestId) <==> Turns(calls[1], requestId) || ApprovedIn(calls[2].db, requestId))
  {
    assert !ApprovedAt(calls, requestId, 0);
    if |calls| > 1 && calls[1].Wrote? { assert ApprovedAt(calls, requestId, 1) <==> Turns(calls[1], requestId); }
    if |calls| > 2 && calls[1].Wrote? && calls[2].Read? {
      assert ApprovedAt(calls, requestId, 2) <==> ApprovedIn(calls[2].db, requestId);
    }
  }

  /** Success is answered exactly when a write of this decision, or of another found afterwards, made the
      request approved. */
  lemma {:induction false} OkIff(calls: seq<Call>, a: Approval, s: Surroundings, retry: bool, result: Result)
    requires Answers(calls, a, s, retry, result)
    ensures result.Ok? <==> Approves(calls, a.requestId)
    decreases retry
  {
    ShortApprovesIff(calls, a.requestId);
    if Decides(calls[0].db, a.requestId, a.grant) {
      AttemptGrantsIff(calls[0].db, a.(now := calls[0].db.clock), s, calls[1]);
      if calls[1].outcome == Some(EntitlementsChanged) {
        assert calls[2] == calls[2..][0];
        if !ApprovedIn(calls[2].db, a.requestId) && retry {
          assert calls[2..][1..] == calls[3..];
          OkIff(calls[3..], a, s, false, result);
          RestApprovesIff(calls, a.requestId);
        }
      }
    }
  }

  lemma RestApprovesIff(calls: seq<Call>, requestId: Id)
    requires |calls| > 3 && calls[0].Read? && calls[1].Wrote? && calls[2].Read? && calls[3].Read?
    requires !Turns(calls[1], requestId) && !ApprovedIn(calls[2].db, requestId)
    ensures Approves(calls, requestId) <==> Approves(calls[3..], requestId)
  {
    var rest := calls[3..];
    forall i | 0 <= i < |rest| ensures ApprovedAt(rest, requestId, i) <==> ApprovedAt(calls, requestId, i + 3) {
      assert rest[i] == calls[i + 3] && (i > 0 ==> rest[i - 1] == calls[i + 2]);
    }
    if i :| 0 <= i < |calls| && ApprovedAt(calls, requestId, i) { assert i >= 3 && ApprovedAt(rest, requestId, i - 3); }
  }

  // -------------------------------------------------------------------- deciding alone

  lemma AloneAttemptIsAlone(read: Db, a: Approval, s: Surroundings, c: Call, rows: seq<Id>, ids: seq<Id>)
    requires c.Wrote? && AttemptWith(read, a, s, c, rows, ids) && c.before == read && a.now == read.clock
    requires UsesUnique(read) && s == Surroundings(true, true)
    ensures var h, e := [read], Approving(0, a, rows, ids, s);
            && Alone(h, e) && GoodHistory(h) && Fresh(h, e) && c.after == After(h, e) && c.d == ApprovingDecision(h, e)
  {
  }

  /** With all rows as it read them, an approval finds the active row of each use. */
  lemma AloneKeepsUnique(h: History, e: Event)
    requires Alone(h, e)
    ensures UsesUnique(After(h, e))
  {
    AloneIsBehind(h, e);
    var a, c := Last(h), ApprovalContext(h, e);
    forall n, k | 0 <= n < |ApprovalScopes(h, e)| ensures !Beside(h, e, n, k) {
      if Beside(h, e, n, k) {
        assert k in e.rows;
        var found := FindCurrent(a, e.rows, c, ApprovalScopes(h, e)[n]).value;
        assert SameUse(a.entitlements[k], a.entitlements[found]);
      }
    }
    ApprovalBreaksIff(h, e);
  }

  lemma AloneAttemptWithGrantsIff(read: Db, a: Approval, s: Surroundings, c: Call, rows: seq<Id>, ids: seq<Id>)
    requires c.Wrote? && AttemptWith(read, a, s, c, rows, ids) && c.before == read && a.now == read.clock
    requires UsesUnique(read) && s == Surroundings(true, true) && a.requestId in read.requests
    ensures var r := read.requests[a.requestId];
            c.outcome == Some(Granted) <==> !Blocked(read, Target(r, a), r.scopes, a.now)
  {
    AloneAttemptIsAlone(read, a, s, c, rows, ids);
    ApprovalAloneSucceedsIff([read], Approving(0, a, rows, ids, s));
  }

  lemma AloneAttemptStaysBlocked(read: Db, a: Approval, s: Surroundings, c: Call, rows: seq<Id>, ids: seq<Id>)
    requires c.Wrote? && AttemptWith(read, a, s, c, rows, ids) && c.before == read && a.now == read.clock
    requires UsesUnique(read) && s == Surroundings(true, true) && a.requestId in read.requests
    ensures UsesUnique(c.after)
    ensures var r := read.requests[a.requestId];
            Blocked(read, Target(r, a), r.scopes, a.now) ==> Blocked(c.after, Target(r, a), r.scopes, a.now)
  {
    var h, e, r := [read], Approving(0, a, rows, ids, s), read.requests[a.requestId];
    AloneAttemptIsAlone(read, a, s, c, rows, ids);
    AloneKeepsUnique(h, e);
    if Blocked(read, Target(r, a), r.scopes, a.now) { BlockedStaysBlocked(h, e, Target(r, a), r.scopes, a.now); }
  }

  lemma AloneAttemptGrantsIff(read: Db, a: Approval, s: Surroundings, c: Call)
    requires c.Wrote? && Attempt(read, a, s, c) && c.before == read && a.now == read.clock
    requires UsesUnique(read) && s == Surroundings(true, true) && a.requestId in read.requests
    ensures var r := read.requests[a.requestId];
            && (c.outcome == Some(Granted) <==> !Blocked(read, Target(r, a), r.scopes, a.now))
            && (Blocked(read, Target(r, a), r.scopes, a.now) ==> Blocked(c.after, Target(r, a), r.scopes, a.now))
    ensures UsesUnique(c.after)
  {
    var rows, ids :| AttemptWith(read, a, s, c, rows, ids);
    AloneAttemptWithGrantsIff(read, a, s, c, rows, ids);
    AloneAttemptStaysBlocked(read, a, s, c, rows, ids);
  }

  lemma FirstWriteUndisturbed(calls: seq<Call>, start: Db, end: Db)
    requires Undisturbed(calls, start, end) && |calls| >= 2 && calls[0].Read? && calls[1].Wrote?
    ensures calls[0] == Read(start) && calls[1].before == start && Undisturbed(calls[2..], calls[1].after, end)
  {
    assert calls[1..][1..] == calls[2..];
  }

  lemma RestUndisturbed(calls: seq<Call>, start: Db, end: Db)
    requires Undisturbed(calls, start, end) && calls != [] && calls[0].Read?
    ensures calls[0] == Read(start) && Undisturbed(calls[1..], start, end)
  {
  }

  /** With nothing else running, a decision to approve succeeds exactly when no expired row that was never ended
      holds one of the slots it needs. The second attempt never helps. */
  lemma {:induction false} DecisionAloneSucceedsIff(
      calls: seq<Call>, a: Approval, s: Surroundings, retry: bool, result: Result, start: Db, end: Db)
    requires Answers(calls, a, s, retry, result) && Undisturbed(calls, start, end)
    requires Decides(start, a.requestId, a.grant) && a.now == start.clock
    requires UsesUnique(start) && s == Surroundings(true, true)
    ensures result.Ok?
       <==> !Blocked(start, Target(start.requests[a.requestId], a), start.requests[a.requestId].scopes, a.now)
    decreases retry
  {
    assert calls[0] == Read(start) && a.(now := start.clock) == a;
    FirstWriteUndisturbed(calls, start, end);
    AttemptGrantsIff(start, a, s, calls[1]);
    AloneAttemptGrantsIff(start, a, s, calls[1]);
    if calls[1].outcome == Some(EntitlementsChanged) {
      RestUndisturbed(calls[2..], calls[1].after, end);
      if retry {
        assert calls[2..][1..] == calls[3..];
        DecisionAloneSucceedsIff(calls[3..], a, s, false, result, calls[1].after, end);
      }
    }
  }

  lemma PlanIsWritable(h: History, e: Event)
    requires e.Approving? && Possible(h, e) && Sound(h[e.read])
    ensures ScopesDiffer(ApprovingDecision(h, e).inserts)
    ensures forall i :: i in ApprovingDecision(h, e).inserts ==> i.0 !in Last(h).entitlements
  {
    var read, r := h[e.read], h[e.read].requests[e.a.requestId];
    assert RequestSound(read, r);
    PlannedRowsDiffer(read, e.rows, Target(r, e.a), e.a.grant, r.scopes, e.newIds);
    forall i | i in ApprovingDecision(h, e).inserts ensures i.0 !in Last(h).entitlements {
      PlannedInsert(read, e.rows, Target(r, e.a), e.a.grant, r.scopes, e.newIds, i);
    }
  }

  lemma WriteIsSound(read: Db, last: Db, e: Event)
    requires e.Approving? && e.read == 0 && Possible([read, last], e)
    requires Sound(read) && Sound(last) && Keeps(read, last)
    ensures var next := After([read, last], e); Keeps(last, next) && Sound(next)
  {
    var h: History := [read, last];
    assert Last(h) == last && h[e.read] == read;
    ApprovingSound(h, e);
  }
}
