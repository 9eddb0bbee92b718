/** The repository as an object whose methods reassign its rows, and the decision use case that calls it
    and retries once. */
module AccessRepository {
  import opened Options
  import opened EntitlementLifetimes
  import opened AccessStore
  import opened AccessPlans
  import opened AccessEffects
  import opened AccessRuns
  import opened Sequences
  import opened AccessSoundness
  import opened AccessOutcomes
  import opened AccessCalls

  class Repository {
    var db: Db
    ghost var calls: seq<Call>
    /** No other call commits anything. */
    ghost const alone: bool

    constructor (ghost alone: bool)
      ensures db == EMPTY && calls == [] && this.alone == alone
    {
      db := EMPTY;
      calls := [];
      this.alone := alone;
    }

    /** An await: other calls may commit. Callers know this contract only. */
    method Elapse()
      requires Sound(db)
      modifies this`db
      ensures Sound(db) && Keeps(old(db), db)
      ensures alone ==> db == old(db)
    {
      KeepsReflexive(db);
    }

    /** findAccessRequest, and the queries made with it. */
    method FindRows() returns (read: Db)
      modifies this`calls
      ensures read == db && calls == old(calls) + [Read(db)]
    {
      read := db;
      calls := calls + [Read(db)];
    }

    method ListActiveEntitlementsByAgent(agent: Id, now: Time) returns (rows: seq<Id>)
      ensures IsListing(db, agent, now, rows)
    {
      rows := [];
      var left := db.entitlements.Keys;
      while left != {}
        invariant left <= db.entitlements.Keys
        invariant forall k :: k in rows <==>
                    k in db.entitlements && k !in left && db.entitlements[k].agent == agent && Active(db.entitlements[k], now)
        decreases left
      {
        var k :| k in left;
        if db.entitlements[k].agent == agent && Active(db.entitlements[k], now) { rows := rows + [k]; }
        left := left - {k};
      }
    }

    /** Ids no row has yet. */
    method GenerateIds(count: nat) returns (ids: seq<Id>)
      ensures |ids| == count && Distinct(ids) && forall n :: n in ids ==> n !in db.entitlements
    {
      var top: nat := 0;
      var left := db.entitlements.Keys;
      while left != {}
        invariant left <= db.entitlements.Keys
        invariant forall k :: k in db.entitlements && k !in left ==> k < top
        decreases left
      {
        var k :| k in left;
        if top <= k { top := k + 1; }
        left := left - {k};
      }
      ids := seq(count, i requires 0 <= i < count => top + i);
    }

    /** The batch: guarded inserts, updates, the guarded decision; None when it is rolled back. */
    method ApproveAccessRequestWithEntitlements(d: Decision, s: Surroundings) returns (outcome: Option<Outcome>)
      requires ScopesDiffer(d.inserts) && forall i :: i in d.inserts ==> i.0 !in db.entitlements
      modifies this
      ensures match Approve(old(db), d, s)
              case None => outcome.None? && db == old(db)
              case Some(next) => db == next && outcome == Some(ApprovalOutcome(old(db), d, s))
      ensures calls == old(calls) + [Wrote(old(db), d, s, db, outcome)]
    {
      var mid, inserted := InsertEach(d.inserts, d.requestId, s);
      var work, updated := mid, true;
      for n := 0 to |d.updates|
        invariant UpdateAll(mid, d.updates) == UpdateAll(work, d.updates[n..])
        invariant work.entitlements.Keys == mid.entitlements.Keys
        invariant forall k :: k in mid.entitlements ==> Unended(work.entitlements[k]) == Unended(mid.entitlements[k])
        invariant updated <==> forall m :: 0 <= m < n ==> Updatable(mid, d.updates[m])
      {
        var next := UpdateEntitlement(work, d.updates[n]);
        assert d.updates[n..][0] == d.updates[n] && d.updates[n..][1..] == d.updates[n + 1..];
        if next.None? {
          calls := calls + [Wrote(db, d, s, db, None)];
          return None;
        }
        updated := updated && Updatable(work, d.updates[n]);
        work := next.value;
      }
      assert UpdateAll(mid, d.updates) == Some(work);
      var decided := Decidable(work, d, s);
      ghost var before := db;
      db := MarkApproved(work, d, s);
      assert AllUpdatable(mid, d.updates) <==> updated;
      outcome := Some(if !inserted then EntitlementsChanged else if !updated then ResourceUnavailable
                      else if !decided then RequestChanged else Granted);
      calls := calls + [Wrote(before, d, s, db, outcome)];
    }

    method InsertEach(inserts: seq<(Id, Entitlement)>, requestId: Id, s: Surroundings) returns (mid: Db, inserted: bool)
      requires ScopesDiffer(inserts) && forall i :: i in inserts ==> i.0 !in db.entitlements
      ensures mid == InsertAll(db, inserts, requestId, s)
      ensures inserted <==> AllInserted(mid, inserts)
    {
      mid, inserted := db, true;
      for n := 0 to |inserts|
        invariant InsertAll(db, inserts, requestId, s) == InsertAll(mid, inserts[n..], requestId, s)
        invariant forall m :: n <= m < |inserts| ==> inserts[m].0 !in mid.entitlements
        invariant inserted <==> forall m :: 0 <= m < n ==> inserts[m].0 in mid.entitlements
      {
        var next := InsertEntitlement(mid, inserts[n].0, inserts[n].1, requestId, s);
        assert inserts[n..][0] == inserts[n] && inserts[n..][1..] == inserts[n + 1..];
        inserted := inserted && inserts[n].0 in next.entitlements;
        mid := next;
      }
    }

    /** The decision computed from `read`, with the ids it uses. */
    method PlanFor(read: Db, a: Approval, rows: seq<Id>) returns (d: Decision, ids: seq<Id>)
      requires Sound(read) && Keeps(read, db) && Approvable(read, a, rows, db.clock)
      ensures |ids| == |read.requests[a.requestId].scopes| && Distinct(ids) && forall n :: n in ids ==> n !in db.entitlements
      ensures d == PlanDecision(read, rows, read.requests[a.requestId], a, ids)
    {
      var request := read.requests[a.requestId];
      ids := GenerateIds(|request.scopes|);
      var inserts, updates, approved := BuildPlan(read, rows, Target(request, a), a.grant, request.scopes, ids);
      d := Decision(a.requestId, a.connection, a.details, inserts, updates, approved);
    }

    /** Plan from what was read, and write whatever the rows have become since. */
    method PlanAndWrite(read: Db, a: Approval, rows: seq<Id>, s: Surroundings) returns (outcome: Option<Outcome>, ghost c: Call)
      requires Sound(read) && Sound(db) && Keeps(read, db) && Approvable(read, a, rows, db.clock)
      modifies this
      ensures Sound(db) && Keeps(read, db)
      ensures c.Wrote? && c.before == old(db) && c.after == db && c.outcome == outcome && Attempt(read, a, s, c)
      ensures calls == old(calls) + [c]
    {
      ghost var last := db;
      var d, ids := PlanFor(read, a, rows);
      ghost var e := Approving(0, a, rows, ids, s);
      PlanIsWritable([read, last], e);
      outcome := ApproveAccessRequestWithEntitlements(d, s);
      WriteIsSound(read, last, e);
      KeepsTransitive(read, last, db);
      c := Wrote(last, d, s, db, outcome);
      assert AttemptWith(read, a, s, c, rows, ids);
    }

    /** One attempt: list the rows, plan, write. */
    method AttemptApproval(read: Db, a: Approval, s: Surroundings) returns (outcome: Option<Outcome>, ghost write: Call)
      requires Sound(db) && read == db && Valid(a.grant) && a.now == read.clock && Decides(read, a.requestId, a.grant)
      modifies this
      ensures Sound(db) && Keeps(read, db) && calls == old(calls) + [write]
      ensures write.Wrote? && write.outcome == outcome && Attempt(read, a, s, write)
      ensures alone ==> write.before == read
      ensures write.after == db && (outcome == Some(Granted) ==> ApprovedIn(db, a.requestId))
    {
      var rows := ListActiveEntitlementsByAgent(read.requests[a.requestId].agent, a.now);
      Elapse();
      outcome, write := PlanAndWrite(read, a, rows, s);
      AttemptGrantsIff(read, a, s, write);
    }

    /** findAccessRequest after an await. */
    method FindAgain(ghost read: Db) returns (found: Db)
      requires Sound(db) && Keeps(read, db)
      modifies this
      ensures Sound(db) && Keeps(read, db) && found == db && calls == old(calls) + [Read(found)]
      ensures alone ==> found == old(db)
    {
      ghost var before := db;
      Elapse();
      KeepsTransitive(read, before, db);
      found := FindRows();
    }

    /** decideAgentAccessRequest for an approval, with other calls committing at every await: log is what it read and
        wrote, which fixes the result. `a` carries what the controller chose; its time is that of each attempt. */
    method DecideAgentAccessRequest(a: Approval, s: Surroundings, retry: bool) returns (result: Result, ghost log: seq<Call>)
      requires Sound(db) && Valid(a.grant)
      modifies this
      ensures Sound(db) && Keeps(old(db), db)
      ensures calls == old(calls) + log && Answers(log, a, s, retry, result) && log[0] == Read(old(db))
      ensures !Waiting(old(db), a.requestId) ==> db == old(db)
      ensures result.Ok? ==> ApprovedIn(db, a.requestId)
      ensures alone ==> Undisturbed(log, old(db), db)
      decreases retry, 1
    {
      KeepsReflexive(db);
      var read := FindRows();
      log := [Read(read)];
      var now := read.clock;
      if a.requestId !in read.requests || read.requests[a.requestId].status != Pending
         || read.requests[a.requestId].expiresAt <= now {
        return NotFound, log;
      }
      if a.grant.expiresAt.Some? && a.grant.expiresAt.value <= now { return BadRequest, log; }
      var outcome, write := AttemptApproval(read, a.(now := now), s);
      TwoCalls(old(calls), read, write);
      log := [Read(read), write];
      if outcome != Some(EntitlementsChanged) {
        AnswersTo(read, write, a, s, retry);
        return if outcome.None? then Conflict else if outcome.value.Granted? then Ok else BadRequest, log;
      }
      ghost var written := db;
      ghost var more;
      result, more := ReconsiderRequest(read, a, s, retry);
      if alone { UndisturbedBoth(log, more, read, written, db); }
      AnswersAfter(read, write, more, a, s, retry, result);
      Regroup(old(calls), log, more);
      log := log + more;
    }

    /** The entitlements had changed: someone else may have approved, else once more from the start. */
    method ReconsiderRequest(ghost read: Db, a: Approval, s: Surroundings, retry: bool)
      returns (result: Result, ghost log: seq<Call>)
      requires Sound(db) && Keeps(read, db) && Valid(a.grant)
      modifies this
      ensures Sound(db) && Keeps(read, db)
      ensures calls == old(calls) + log && AnswersAgain(log, a, s, retry, result)
      ensures result.Ok? ==> ApprovedIn(db, a.requestId)
      ensures alone ==> Undisturbed(log, old(db), db)
      decreases retry, 0
    {
      var found := FindAgain(read);
      log := [Read(found)];
      if a.requestId in found.requests && found.requests[a.requestId].status == Approved { return Ok, log; }
      if !retry { return BadRequest, log; }
      ghost var more;
      result, more := DecideAgentAccessRequest(a, s, false);
      KeepsTransitive(read, found, db);
      if alone { UndisturbedBoth(log, more, found, found, db); }
      AnswersOnceMore(found, more, a, s, result);
      Regroup(old(calls), log, more);
      log := log + more;
    }
  }
}
