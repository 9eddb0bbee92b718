/** The durable cleanup of deleted accounts (processAccountDeletionCleanup in
    server/usecases/account-deletion.ts, its repository in server/adapters/repos/account-deletion.ts). */
module AccountCleanup {
  import opened Options
  import opened Runs
  import opened Sequences

  type Time = int
  type UserId = nat
  type ClaimId = nat
  type Key = nat

  const CLAIM_LASTS: Time := 300000
  const MAX_JOBS: nat := 10

  datatype Claim = Claim(id: ClaimId, until: Time)

  /** A row of account_deletion_cleanup. */
  datatype Row = Row(keys: seq<Key>, attempts: nat, nextAttempt: Time, claim: Option<Claim>)

  datatype Job = Job(user: UserId, keys: seq<Key>, attempts: nat, claim: ClaimId)

  type Table = map<UserId, Row>

  // ---------------------------------------------------------------- repository calls

  predicate Due(row: Row, now: Time) {
    row.nextAttempt <= now && (row.claim.Some? ==> row.claim.value.until <= now)
  }

  function ClaimRow(t: Table, user: UserId, id: ClaimId, now: Time): Table
    requires user in t
  {
    t[user := t[user].(claim := Some(Claim(id, now + CLAIM_LASTS)))]
  }

  function JobOf(t: Table, user: UserId, id: ClaimId): Job
    requires user in t
  {
    Job(user, t[user].keys, t[user].attempts, id)
  }

  predicate ClaimedBy(t: Table, job: Job) {
    job.user in t && t[job.user].claim.Some? && t[job.user].claim.value.id == job.claim
  }

  function Finish(t: Table, job: Job): Table {
    if ClaimedBy(t, job) then t - {job.user} else t
  }

  function Power2(n: nat): nat {
    if n == 0 then 1 else 2 * Power2(n - 1)
  }

  function Backoff(attempts: nat): Time {
    var wait := 60000 * Power2(if attempts < 6 then attempts else 6);
    if wait < 3600000 then wait else 3600000
  }

  /** A job that fails waits a minute, then each time twice as long as before, up to an hour. */
  lemma BackoffDoubles(attempts: nat)
    ensures Backoff(0) == 60000
    ensures Backoff(attempts + 1) == if 2 * Backoff(attempts) < 3600000 then 2 * Backoff(attempts) else 3600000
  {
    if attempts >= 5 { SixtyFour(); }
  }

  lemma SixtyFour()
    ensures Power2(5) == 32 && Power2(6) == 64
  {
    assert Power2(5) == 2 * Power2(4) && Power2(4) == 2 * Power2(3) && Power2(3) == 2 * Power2(2);
  }

  function Retry(t: Table, job: Job, now: Time): Table {
    if ClaimedBy(t, job)
    then t[job.user := Row(t[job.user].keys, t[job.user].attempts + 1, now + Backoff(job.attempts), None)]
    else t
  }

  /** enqueueAssetCleanup for a deleted user: any claim is given up, so that the new key is seen. */
  function Enqueue(t: Table, user: UserId, key: Key): Table {
    if user in t then t[user := Row(t[user].keys + [key], t[user].attempts, 0, None)]
    else t[user := Row([key], 0, 0, None)]
  }

  // ---------------------------------------------------------- workers on the same table

  datatype Event =
    | TakeJob(user: UserId, id: ClaimId, now: Time)
    | FinishJob(job: Job)
    | RetryJob(job: Job, now: Time)
    | EnqueueKey(user: UserId, key: Key)

  /** `jobs` are the jobs handed out so far, `used` their claim ids. */
  datatype State = State(table: Table, jobs: set<Job>, used: set<ClaimId>)

  const START := State(map[], {}, {})

  predicate Possible(s: State, e: Event) {
    match e
    case TakeJob(user, id, now) => user in s.table && Due(s.table[user], now) && id !in s.used
    case FinishJob(job) => job in s.jobs
    case RetryJob(job, _) => job in s.jobs
    case EnqueueKey(_, _) => true
  }

  function After(s: State, e: Event): State
    requires Possible(s, e)
  {
    match e
    case TakeJob(user, id, now) =>
      State(ClaimRow(s.table, user, id, now), s.jobs + {JobOf(s.table, user, id)}, s.used + {id})
    case FinishJob(job) => s.(table := Finish(s.table, job))
    case RetryJob(job, now) => s.(table := Retry(s.table, job, now))
    case EnqueueKey(user, key) => s.(table := Enqueue(s.table, user, key))
  }

  ghost function Steps(): (seq<State>, Event, State) -> bool {
    (h: seq<State>, e: Event, next: State) => h != [] && Possible(h[|h| - 1], e) && next == After(h[|h| - 1], e)
  }

  ghost predicate IsRun(h: seq<State>, es: seq<Event>) {
    RunOf(h, es, START, Steps())
  }

  /** A job whose claim the row still has knows all of the row's keys. */
  ghost predicate ClaimsKnowKeys(s: State) {
    && (forall u :: u in s.table && s.table[u].claim.Some? ==> s.table[u].claim.value.id in s.used)
    && (forall j :: j in s.jobs ==> j.claim in s.used && (ClaimedBy(s.table, j) ==> s.table[j.user].keys == j.keys))
  }

  lemma StepKnowsKeys(s: State, e: Event)
    requires Possible(s, e) && ClaimsKnowKeys(s)
    ensures ClaimsKnowKeys(After(s, e))
  {
  }

  ghost function AlwaysKnown(): (seq<State>, seq<Event>) -> bool {
    (h: seq<State>, es: seq<Event>) => h != [] && ClaimsKnowKeys(h[|h| - 1])
  }

  /** Whatever the workers and uploads interleave, finishing a job removes its row only when every asset
      key in the row is one the job was given: a key enqueued after the claim is never lost. */
  lemma FinishLosesNoKey(h: seq<State>, es: seq<Event>, job: Job)
    requires IsRun(h, es) && h != [] && job in h[|h| - 1].jobs && job.user in h[|h| - 1].table
    ensures var t := h[|h| - 1].table;
            job.user !in Finish(t, job) ==> t[job.user].keys == job.keys
  {
    forall g, fs, e, next {:trigger Steps()(g, e, next), AlwaysKnown()(g, fs)} | AlwaysKnown()(g, fs) && Steps()(g, e, next)
      ensures AlwaysKnown()(g + [next], fs + [e])
    {
      StepKnowsKeys(g[|g| - 1], e);
    }
    Induction(h, es, START, Steps(), AlwaysKnown());
  }

  /** A worker whose claim was taken over or given up changes nothing by finishing or retrying. */
  lemma LostJobIsInert(t: Table, job: Job, now: Time)
    requires !ClaimedBy(t, job)
    ensures Finish(t, job) == t && Retry(t, job, now) == t
  {
  }

  // ---------------------------------------------------------------- one pass over a job

  /** A stored provider token that has to be revoked at its provider and then cleared. */
  datatype Item = TokenLease(id: nat) | Connection(id: nat)

  /** Each call the use case awaits leaves one entry; `ok` is whether the call succeeded. */
  datatype Entry =
    | ClaimFailed
    | Took(job: Job)
    | Erased(key: Key, ok: bool)
    | Listed(user: UserId, items: Option<seq<Item>>)
    | Revoked(item: Item, ok: bool)
    | Cleared(item: Item, ok: bool)
    | Published(user: UserId, ok: bool)
    | Finished(job: Job, ok: bool)
    | Retried(job: Job, ok: bool)

  predicate Ok(e: Entry) {
    match e
    case ClaimFailed => false
    case Took(_) => true
    case Listed(_, items) => items.Some?
    case Erased(_, ok) => ok
    case Revoked(_, ok) => ok
    case Cleared(_, ok) => ok
    case Published(_, ok) => ok
    case Finished(_, ok) => ok
    case Retried(_, ok) => ok
  }

  predicate AllOk(log: seq<Entry>) {
    forall e :: e in log ==> Ok(e)
  }

  // -------------------------------------------------------------- what every log satisfies

  /** A token is cleared directly after its own revocation succeeded, and only then. */
  predicate Paired(log: seq<Entry>) {
    && (forall n :: 0 <= n < |log| && log[n].Cleared? ==> n > 0 && log[n - 1] == Revoked(log[n].item, true))
    && (forall n :: 0 <= n < |log| && log[n].Revoked? && log[n].ok ==>
          n + 1 < |log| && log[n + 1].Cleared? && log[n + 1].item == log[n].item)
  }

  function Erasures(keys: seq<Key>): seq<Entry> {
    seq(|keys|, n requires 0 <= n < |keys| => Erased(keys[n], true))
  }

  function Clearings(items: seq<Item>): seq<Entry> {
    if items == [] then []
    else
      var n := |items| - 1;
      Clearings(items[..n]) + [Revoked(items[n], true), Cleared(items[n], true)]
  }

  /** The attempts of a pass in which every call succeeded. */
  function FullAttempts(job: Job, leases: seq<Item>, connections: seq<Item>): seq<Entry> {
    Erasures(job.keys) + [Listed(job.user, Some(leases))] + Clearings(leases)
    + [Listed(job.user, Some(connections))] + Clearings(connections)
  }

  function FullPass(job: Job, leases: seq<Item>, connections: seq<Item>, ok: bool): seq<Entry> {
    [Took(job)] + FullAttempts(job, leases, connections) + [Published(job.user, true), Finished(job, ok)]
  }

  ghost predicate FinishedAt(log: seq<Entry>, n: nat)
    requires n < |log| && log[n].Finished?
  {
    exists m, leases, connections :: EndsPass(log, n, m, leases, connections)
  }

  predicate EndsPass(log: seq<Entry>, n: nat, m: nat, leases: seq<Item>, connections: seq<Item>)
    requires n < |log| && log[n].Finished?
  {
    m <= n && log[m..n + 1] == FullPass(log[n].job, leases, connections, log[n].ok)
  }

  predicate NoFinish(log: seq<Entry>) {
    forall n :: 0 <= n < |log| ==> !log[n].Finished?
  }

  ghost predicate Orderly(log: seq<Entry>) {
    Paired(log) && forall n :: 0 <= n < |log| && log[n].Finished? ==> FinishedAt(log, n)
  }

  /** What the log of a worker satisfies at any moment: it may have revoked a token and not yet cleared it. */
  ghost predicate InOrder(log: seq<Entry>) {
    && (forall n :: 0 <= n < |log| && log[n].Cleared? ==> n > 0 && log[n - 1] == Revoked(log[n].item, true))
    && (forall n :: 0 <= n < |log| && log[n].Finished? ==> FinishedAt(log, n))
  }

  lemma PairedAppend(a: seq<Entry>, b: seq<Entry>)
    requires Paired(a) && Paired(b)
    ensures Paired(a + b)
  {
    var log := a + b;
    forall n | 0 <= n < |log| && log[n].Cleared? ensures n > 0 && log[n - 1] == Revoked(log[n].item, true) {
      if n >= |a| { assert b[n - |a|] == log[n]; }
    }
    forall n | 0 <= n < |log| && log[n].Revoked? && log[n].ok
      ensures n + 1 < |log| && log[n + 1].Cleared? && log[n + 1].item == log[n].item
    {
      if n >= |a| { assert b[n - |a|] == log[n]; }
    }
  }

  lemma OrderlyAppend(log: seq<Entry>, more: seq<Entry>)
    requires Orderly(log) && Paired(more) && NoFinish(more)
    ensures Orderly(log + more)
  {
    PairedAppend(log, more);
    assert forall n :: |log| <= n < |log + more| ==> (log + more)[n] == more[n - |log|];
    forall n | 0 <= n < |log + more| && (log + more)[n].Finished? ensures FinishedAt(log + more, n) {
      FinishedStays(log, more, n);
    }
  }

  lemma FinishedStays(log: seq<Entry>, more: seq<Entry>, n: nat)
    requires n < |log| && log[n].Finished? && FinishedAt(log, n)
    ensures FinishedAt(log + more, n)
  {
    var m: nat, leases, connections :| EndsPass(log, n, m, leases, connections);
    assert (log + more)[m..n + 1] == log[m..n + 1];
    assert EndsPass(log + more, n, m, leases, connections);
  }

  /** The last entry of a pass without a failure. */
  lemma OrderlyFinish(log: seq<Entry>, before: seq<Entry>, job: Job, leases: seq<Item>, connections: seq<Item>, ok: bool)
    requires Orderly(log)
    requires log == before + [Took(job)] + FullAttempts(job, leases, connections) + [Published(job.user, true)]
    ensures Orderly(log + [Finished(job, ok)])
  {
    var last := [Finished(job, ok)];
    PairedAppend(log, last);
    forall n | 0 <= n < |log + last| && (log + last)[n].Finished? ensures FinishedAt(log + last, n) {
      if n < |log| {
        FinishedStays(log, last, n);
      } else {
        assert (log + last)[|before|..n + 1] == FullPass(job, leases, connections, ok);
        assert EndsPass(log + last, n, |before|, leases, connections);
      }
    }
  }

  lemma FullFrom(base: seq<Entry>, job: Job, leases: seq<Item>, connections: seq<Item>)
    ensures base + Erasures(job.keys) + [Listed(job.user, Some(leases))] + Clearings(leases)
            + [Listed(job.user, Some(connections))] + Clearings(connections)
         == base + FullAttempts(job, leases, connections)
  {
  }

  lemma {:induction false} ClearingsHold(items: seq<Item>, item: Item)
    ensures Cleared(item, true) in Clearings(items) <==> item in items
  {
    if items != [] {
      var n := |items| - 1;
      ClearingsHold(items[..n], item);
      assert items == items[..n] + [items[n]];
    }
  }

  /** What a finished job means, in any log: its pass began when it was taken, and in that one pass each of
      its files was erased, both listings succeeded, every token listed was revoked and cleared, and the
      deletion was published last. */
  lemma FinishedMeansAllDone(log: seq<Entry>, n: nat) returns (m: nat, leases: seq<Item>, connections: seq<Item>)
    requires InOrder(log) && n < |log| && log[n].Finished?
    ensures m < n && log[m] == Took(log[n].job) && AllOk(log[m..n])
    ensures log[n - 1] == Published(log[n].job.user, true)
    ensures forall k :: k in log[n].job.keys ==> Erased(k, true) in log[m..n]
    ensures Listed(log[n].job.user, Some(leases)) in log[m..n] && Listed(log[n].job.user, Some(connections)) in log[m..n]
    ensures forall i :: i in leases || i in connections ==> Cleared(i, true) in log[m..n]
  {
    var job, ok := log[n].job, log[n].ok;
    assert FinishedAt(log, n);
    var m': nat, l, c :| EndsPass(log, n, m', l, c);
    m, leases, connections := m', l, c;
    var pass := FullPass(job, l, c, ok);
    assert |pass| == n + 1 - m;
    assert log[m] == pass[0] && log[n - 1] == pass[|pass| - 2];
    assert log[m..n] == pass[..|pass| - 1];
    assert pass[..|pass| - 1] == [Took(job)] + FullAttempts(job, l, c) + [Published(job.user, true)];
    AllInFull(job, l, c);
  }

  lemma AllInFull(job: Job, leases: seq<Item>, connections: seq<Item>)
    ensures var full := FullAttempts(job, leases, connections);
            && AllOk(full) && (forall k :: k in job.keys ==> Erased(k, true) in full)
            && Listed(job.user, Some(leases)) in full && Listed(job.user, Some(connections)) in full
            && forall i :: i in leases || i in connections ==> Cleared(i, true) in full
  {
    ClearingsOk(leases);
    ClearingsOk(connections);
    forall k | k in job.keys ensures Erased(k, true) in Erasures(job.keys) {
      var n :| 0 <= n < |job.keys| && job.keys[n] == k;
      assert Erasures(job.keys)[n] == Erased(k, true);
    }
    forall i ensures (i in leases ==> Cleared(i, true) in Clearings(leases))
                     && (i in connections ==> Cleared(i, true) in Clearings(connections))
    {
      ClearingsHold(leases, i);
      ClearingsHold(connections, i);
    }
  }

  lemma {:induction false} ClearingsOk(items: seq<Item>)
    ensures AllOk(Clearings(items))
  {
    if items != [] { ClearingsOk(items[..|items| - 1]); }
  }

  // ------------------------------------------------------------------ what the calls change

  /** The tokens still stored: those whose clearing was not recorded. */
  function TokensAfter(stored: map<Item, set<UserId>>, log: seq<Entry>): map<Item, set<UserId>> {
    map i | i in stored && Cleared(i, true) !in log :: stored[i]
  }

  function AssetsAfter(uploaded: set<Key>, log: seq<Entry>): set<Key> {
    set k | k in uploaded && Erased(k, true) !in log
  }

  /** What other workers cleared and erased is in their logs. */
  ghost predicate Accounted(elsewhere: map<nat, seq<Entry>>, gone: set<Item>, lost: set<Key>) {
    && (forall w :: w in elsewhere ==> InOrder(elsewhere[w]))
    && (forall i :: i in gone ==> exists w :: w in elsewhere && Cleared(i, true) in elsewhere[w])
    && (forall k :: k in lost ==> exists w :: w in elsewhere && Erased(k, true) in elsewhere[w])
  }

  /** Entries that clear and erase nothing. */
  lemma QuietEntry(stored: map<Item, set<UserId>>, uploaded: set<Key>, log: seq<Entry>, e: Entry)
    requires !e.Erased? && !e.Cleared?
    ensures TokensAfter(stored, log + [e]) == TokensAfter(stored, log)
    ensures AssetsAfter(uploaded, log + [e]) == AssetsAfter(uploaded, log)
  {
  }

  /** Clearing a token, or failing to. */
  lemma ClearingEntry(stored: map<Item, set<UserId>>, uploaded: set<Key>, log: seq<Entry>, item: Item, ok: bool)
    ensures TokensAfter(stored, log + [Cleared(item, ok)])
         == if ok then TokensAfter(stored, log) - {item} else TokensAfter(stored, log)
    ensures AssetsAfter(uploaded, log + [Cleared(item, ok)]) == AssetsAfter(uploaded, log)
  {
  }

  lemma ErasingEntry(stored: map<Item, set<UserId>>, uploaded: set<Key>, log: seq<Entry>, key: Key, ok: bool)
    ensures AssetsAfter(uploaded, log + [Erased(key, ok)])
         == if ok then AssetsAfter(uploaded, log) - {key} else AssetsAfter(uploaded, log)
    ensures TokensAfter(stored, log + [Erased(key, ok)]) == TokensAfter(stored, log)
  {
  }

  /** After all attempts of a pass succeeded, nothing that was listed or to be erased is stored. */
  lemma NothingLeft(
      stored: map<Item, set<UserId>>, uploaded: set<Key>, log: seq<Entry>,
      before: seq<Entry>, job: Job, leases: seq<Item>, connections: seq<Item>)
    requires log == before + FullAttempts(job, leases, connections)
    ensures forall i :: i in TokensAfter(stored, log) ==> i !in leases && i !in connections
    ensures forall k :: k in AssetsAfter(uploaded, log) ==> k !in job.keys
  {
    AllInFull(job, leases, connections);
    assert forall e :: e in FullAttempts(job, leases, connections) ==> e in log;
  }

  /** The token was cleared directly after its own revocation had succeeded. */
  predicate RevokedThenCleared(log: seq<Entry>, item: Item) {
    exists n {:trigger log[n]} :: 0 < n < |log| && log[n - 1] == Revoked(item, true) && log[n] == Cleared(item, true)
  }

  lemma ClearedIsRevoked(log: seq<Entry>, item: Item)
    requires InOrder(log) && Cleared(item, true) in log
    ensures RevokedThenCleared(log, item)
  {
    var n :| 0 <= n < |log| && log[n] == Cleared(item, true);
  }

  /** A token that is gone was cleared by some worker, directly after that worker had revoked it. */
  lemma GoneWasRevoked(
      stored: map<Item, set<UserId>>, gone: set<Item>, lost: set<Key>, elsewhere: map<nat, seq<Entry>>, log: seq<Entry>, item: Item)
    requires InOrder(log) && Accounted(elsewhere, gone, lost) && item in stored && item !in TokensAfter(stored - gone, log)
    ensures RevokedThenCleared(log, item) || exists w :: w in elsewhere && RevokedThenCleared(elsewhere[w], item)
  {
    if item in gone {
      var w :| w in elsewhere && Cleared(item, true) in elsewhere[w];
      ClearedIsRevoked(elsewhere[w], item);
    } else {
      ClearedIsRevoked(log, item);
    }
  }

  /** The attempt on one token whose first entry is written at position `at`; `ok` says how the call that
      leaves the entry at a position ends. */
  function ItemEntries(item: Item, ok: nat -> bool, at: nat): seq<Entry> {
    if ok(at) then [Revoked(item, true), Cleared(item, ok(at + 1))] else [Revoked(item, false)]
  }

  function ItemsLog(items: seq<Item>, ok: nat -> bool, at: nat): seq<Entry> {
    if items == [] then []
    else
      var before := ItemsLog(items[..|items| - 1], ok, at);
      before + ItemEntries(items[|items| - 1], ok, at + |before|)
  }

  function KeysLog(keys: seq<Key>, ok: nat -> bool, at: nat): seq<Entry> {
    seq(|keys|, n requires 0 <= n < |keys| => Erased(keys[n], ok(at + n)))
  }

  function AttemptsOf(log: seq<Entry>): seq<Item> {
    if log == [] then []
    else
      var n := |log| - 1;
      AttemptsOf(log[..n]) + (if log[n].Revoked? then [log[n].item] else [])
  }

  lemma AttemptsSnoc(before: seq<Entry>, item: Item, ok: nat -> bool, at: nat)
    ensures AttemptsOf(before + ItemEntries(item, ok, at)) == AttemptsOf(before) + [item]
  {
    var one := before + [Revoked(item, ok(at))];
    assert one[..|before|] == before;
    if ok(at) {
      var two := one + [Cleared(item, ok(at + 1))];
      assert two == before + ItemEntries(item, ok, at) && two[..|one|] == one;
    }
  }

  /** Every token is tried once and in order, whatever became of the ones before it. */
  lemma {:induction false} EveryItemIsAttempted(items: seq<Item>, ok: nat -> bool, at: nat)
    ensures AttemptsOf(ItemsLog(items, ok, at)) == items
  {
    if items != [] {
      var n, before := |items| - 1, ItemsLog(items[..|items| - 1], ok, at);
      calc {
        AttemptsOf(ItemsLog(items, ok, at));
        AttemptsOf(before + ItemEntries(items[n], ok, at + |before|));
        { AttemptsSnoc(before, items[n], ok, at + |before|); }
        AttemptsOf(before) + [items[n]];
        { EveryItemIsAttempted(items[..n], ok, at); }
        items[..n] + [items[n]];
        items;
      }
    }
  }

  lemma {:induction false} ItemsLogPaired(items: seq<Item>, ok: nat -> bool, at: nat)
    ensures Paired(ItemsLog(items, ok, at)) && NoFinish(ItemsLog(items, ok, at))
  {
    if items != [] {
      var n, before := |items| - 1, ItemsLog(items[..|items| - 1], ok, at);
      ItemsLogPaired(items[..n], ok, at);
      PairedAppend(before, ItemEntries(items[n], ok, at + |before|));
    }
  }

  lemma KeysSnoc(keys: seq<Key>, n: nat, ok: nat -> bool, at: nat)
    requires n < |keys|
    ensures KeysLog(keys[..n + 1], ok, at) == KeysLog(keys[..n], ok, at) + [Erased(keys[n], ok(at + n))]
    ensures Erasures(keys[..n + 1]) == Erasures(keys[..n]) + [Erased(keys[n], true)]
  {
  }

  lemma LogSnoc(items: seq<Item>, n: nat, ok: nat -> bool, at: nat)
    requires n < |items|
    ensures var before := ItemsLog(items[..n], ok, at);
            ItemsLog(items[..n + 1], ok, at) == before + ItemEntries(items[n], ok, at + |before|)
    ensures Clearings(items[..n + 1]) == Clearings(items[..n]) + [Revoked(items[n], true), Cleared(items[n], true)]
  {
    var more := items[..n + 1];
    assert more[..n] == items[..n] && more[n] == items[n];
  }

  /** An attempt on the token was made at or after this position. */
  predicate Tried(log: seq<Entry>, from: nat, item: Item) {
    exists n :: from <= n < |log| && log[n].Revoked? && log[n].item == item
  }

  lemma TriedStays(log: seq<Entry>, more: seq<Entry>, from: nat, earlier: nat, item: Item)
    requires Tried(log, from, item) && log <= more && earlier <= from
    ensures Tried(more, earlier, item)
  {
    var n :| from <= n < |log| && log[n].Revoked? && log[n].item == item;
    assert more[n] == log[n];
  }

  /** A listing failed at or after this position, or whatever is left of the user's tokens was tried. */
  predicate Attempted(tokens: map<Item, set<UserId>>, user: UserId, log: seq<Entry>, from: nat) {
    || (exists n :: from <= n < |log| && log[n] == Listed(user, None))
    || forall i :: i in tokens && user in tokens[i] ==> Tried(log, from, i)
  }

  /** Part of the map. */
  predicate Within(a: map<Item, set<UserId>>, b: map<Item, set<UserId>>) {
    forall i :: i in a ==> i in b && a[i] == b[i]
  }

  lemma AttemptedStays(
      tokens: map<Item, set<UserId>>, fewer: map<Item, set<UserId>>, user: UserId, log: seq<Entry>, more: seq<Entry>, from: nat)
    requires Attempted(tokens, user, log, from) && log <= more && Within(fewer, tokens)
    ensures Attempted(fewer, user, more, from)
  {
    if n :| from <= n < |log| && log[n] == Listed(user, None) {
      assert more[n] == log[n];
    } else {
      forall i | i in fewer && user in fewer[i] ensures Tried(more, from, i) { TriedStays(log, more, from, from, i); }
    }
  }

  lemma LeftWasTried(
      tokens: map<Item, set<UserId>>, user: UserId, log: seq<Entry>, more: seq<Entry>, middle: nat, from: nat,
      leases: seq<Item>, connections: seq<Item>)
    requires log <= more && from <= middle <= |log|
    requires forall i :: i in leases ==> Tried(log, middle, i)
    requires forall i :: i in connections ==> Tried(more, |log|, i)
    requires forall i :: i in tokens && user in tokens[i] ==> i in leases || i in connections
    ensures Attempted(tokens, user, more, from)
  {
    forall i | i in tokens && user in tokens[i] ensures Tried(more, from, i) {
      if i in leases { TriedStays(log, more, middle, from, i); } else { TriedStays(more, more, |log|, from, i); }
    }
  }

  lemma {:induction false} ItemsTried(base: seq<Entry>, items: seq<Item>, ok: nat -> bool, item: Item)
    requires item in items
    ensures Tried(base + ItemsLog(items, ok, |base|), |base|, item)
    decreases |items|
  {
    var n, before := |items| - 1, ItemsLog(items[..|items| - 1], ok, |base|);
    var all := ItemsLog(items, ok, |base|);
    if item == items[n] {
      assert (base + all)[|base| + |before|] == all[|before|];
    } else {
      assert item in items[..n];
      ItemsTried(base, items[..n], ok, item);
      TriedStays(base + before, base + all, |base|, |base|, item);
    }
  }

  /** A call made at or after this position failed. */
  predicate Failed(log: seq<Entry>, from: nat) {
    exists n :: from <= n < |log| && !Ok(log[n])
  }

  lemma FailedStays(log: seq<Entry>, more: seq<Entry>, from: nat, earlier: nat)
    requires Failed(log, from) && log <= more && earlier <= from
    ensures Failed(more, earlier)
  {
    var n :| from <= n < |log| && !Ok(log[n]);
    assert more[n] == log[n];
  }

  /** One job more, or the failure to claim one. */
  lemma FailedSplit(log: seq<Entry>, claimed: seq<Entry>, more: seq<Entry>, from: nat)
    requires log <= claimed <= more && from <= |log|
    ensures Failed(more, from) <==> Failed(log, from) || Failed(claimed, |log|) || Failed(more, |claimed|)
  {
    if Failed(log, from) { FailedStays(log, more, from, from); }
    if Failed(claimed, |log|) { FailedStays(claimed, more, |log|, from); }
    if Failed(more, |claimed|) { FailedStays(more, more, |claimed|, from); }
  }

  lemma JobFailedIff(
      before: seq<Entry>, attempts: seq<Entry>, log: seq<Entry>, job: Job, leases: seq<Item>, connections: seq<Item>,
      finished: bool)
    requires finished ==>
               log == before + FullAttempts(job, leases, connections) + [Published(job.user, true), Finished(job, true)]
    requires !finished ==>
               |before| <= |attempts| && attempts <= log && (Failed(attempts, |before|) || Failed(log, |attempts|))
    ensures finished <==> !Failed(log, |before|)
  {
    if finished {
      PassNotFailed(before, job, leases, connections);
    } else if Failed(attempts, |before|) {
      FailedStays(attempts, log, |before|, |before|);
    } else {
      FailedStays(log, log, |attempts|, |before|);
    }
  }

  lemma PassNotFailed(before: seq<Entry>, job: Job, leases: seq<Item>, connections: seq<Item>)
    ensures !Failed(before + FullAttempts(job, leases, connections) + [Published(job.user, true), Finished(job, true)], |before|)
  {
    AllInFull(job, leases, connections);
    var pass := FullAttempts(job, leases, connections) + [Published(job.user, true), Finished(job, true)];
    var log := before + FullAttempts(job, leases, connections) + [Published(job.user, true), Finished(job, true)];
    forall n | |before| <= n < |log| ensures Ok(log[n]) { assert log[n] == pass[n - |before|] && pass[n - |before|] in pass; }
  }

  /** The first n items have been attempted, from log0 on. */
  ghost predicate AttemptedTo(items: seq<Item>, n: nat, ok: nat -> bool, log0: seq<Entry>, log: seq<Entry>, errors: nat)
    requires n <= |items|
  {
    var entries := ItemsLog(items[..n], ok, |log0|);
    log == log0 + entries && (if errors == 0 then entries == Clearings(items[..n]) else Failed(log, |log0|))
  }

  lemma AttemptedNext(
      items: seq<Item>, n: nat, ok: nat -> bool, log0: seq<Entry>, log: seq<Entry>, errors: nat, done: bool)
    requires n < |items| && AttemptedTo(items, n, ok, log0, log, errors)
    requires done ==> ItemEntries(items[n], ok, |log|) == [Revoked(items[n], true), Cleared(items[n], true)]
    requires !done ==> Failed(log + ItemEntries(items[n], ok, |log|), |log|)
    ensures AttemptedTo(items, n + 1, ok, log0, log + ItemEntries(items[n], ok, |log|), if done then errors else errors + 1)
  {
    var more := log + ItemEntries(items[n], ok, |log|);
    if errors != 0 { FailedStays(log, more, |log0|, |log0|); } else if !done { FailedStays(more, more, |log|, |log0|); }
    var before := ItemsLog(items[..n], ok, |log0|);
    LogSnoc(items, n, ok, |log0|);
    Regroup(log0, before, ItemEntries(items[n], ok, |log|));
  }

  /** The table, the files and provider tokens still stored, and one worker's log of all its invocations. Other
      workers run at every await; `elsewhere` are their logs, `gone` and `lost` what they cleared and erased. */
  class Cleanup {
    const stored: map<Item, set<UserId>>
    const uploaded: set<Key>
    var table: Table
    var tokens: map<Item, set<UserId>>
    var assets: set<Key>
    var log: seq<Entry>
    ghost var elsewhere: map<nat, seq<Entry>>
    ghost var gone: set<Item>
    ghost var lost: set<Key>

    /** The logs tell what became of everything that was ever stored. */
    ghost predicate Settled()
      reads this
    {
      && tokens == TokensAfter(stored - gone, log) && assets == AssetsAfter(uploaded - lost, log)
      && Accounted(elsewhere, gone, lost)
    }

    ghost predicate Valid()
      reads this
    {
      Orderly(log) && Settled()
    }

    /** No file and no token of the job's user is stored. */
    predicate Gone(job: Job)
      reads this
    {
      (forall i :: i in tokens ==> job.user !in tokens[i]) && forall k :: k in job.keys ==> k !in assets
    }

    constructor (initial: Table, tokens: map<Item, set<UserId>>, assets: set<Key>)
      ensures Valid() && table == initial && stored == tokens && uploaded == assets && log == []
    {
      stored, uploaded, table, this.tokens, this.assets, log := tokens, assets, initial, tokens, assets, [];
      elsewhere, gone, lost := map[], {}, {};
    }

    /** An await: other workers write the table, and clear and erase in their own order. */
    method Elapse()
      requires Settled()
      modifies this`table, this`tokens, this`assets, this`elsewhere, this`gone, this`lost
      ensures Settled() && Within(tokens, old(tokens)) && assets <= old(assets)
    {
    }

    /** The due row that has waited longest gets the claim. `seen` is the table then. */
    method ClaimNext(id: ClaimId, now: Time, ok: nat -> bool) returns (job: Option<Job>, threw: bool, ghost seen: Table)
      requires Valid()
      modifies this
      ensures Valid() && old(log) <= log && (threw ==> job.None?)
      ensures Within(tokens, old(tokens)) && assets <= old(assets)
      ensures threw <==> Failed(log, |old(log)|)
      ensures job.None? ==> table == seen && (!threw ==> log == old(log) && forall u :: u in table ==> !Due(table[u], now))
      ensures job.Some? ==>
                && job.value.user in seen && Due(seen[job.value.user], now)
                && job.value == JobOf(seen, job.value.user, id) && table == ClaimRow(seen, job.value.user, id, now)
                && (forall u :: u in seen && Due(seen[u], now) ==>
                      seen[job.value.user].nextAttempt <= seen[u].nextAttempt)
                && log == old(log) + [Took(job.value)]
    {
      Elapse();
      seen := table;
      job, threw := None, !ok(|log|);
      if threw {
        Append(ClaimFailed);
        assert !Ok(log[|old(log)|]);
        return;
      }
      var best: Option<UserId>, left := None, table.Keys;
      while left != {}
        invariant left <= table.Keys
        invariant best.Some? ==> best.value in table && Due(table[best.value], now)
        invariant forall u :: u in table && u !in left && Due(table[u], now) ==>
                    best.Some? && table[best.value].nextAttempt <= table[u].nextAttempt
        decreases left
      {
        var u :| u in left;
        if Due(table[u], now) && (best.None? || table[u].nextAttempt < table[best.value].nextAttempt) { best := Some(u); }
        left := left - {u};
      }
      if best.None? { return; }
      job := Some(JobOf(table, best.value, id));
      table := ClaimRow(table, best.value, id, now);
      Append(Took(job.value));
    }

    /** An entry that clears and erases nothing. */
    method Append(e: Entry)
      requires Valid() && !e.Erased? && !e.Revoked? && !e.Cleared? && !e.Finished?
      modifies this`log
      ensures Valid() && log == old(log) + [e]
    {
      OrderlyAppend(log, [e]);
      QuietEntry(stored - gone, uploaded - lost, log, e);
      log := log + [e];
    }

    /** deps.assetStorage.delete for each key, one failure never stopping the next. */
    method EraseKeys(keys: seq<Key>, ok: nat -> bool) returns (errors: nat)
      requires Valid()
      modifies this
      ensures Valid() && log == old(log) + KeysLog(keys, ok, |old(log)|)
      ensures if errors == 0 then KeysLog(keys, ok, |old(log)|) == Erasures(keys) else Failed(log, |old(log)|)
      ensures Within(tokens, old(tokens)) && assets <= old(assets)
    {
      errors := 0;
      ghost var at := |log|;
      for n := 0 to |keys|
        invariant Settled() && log == old(log) + KeysLog(keys[..n], ok, at)
        invariant if errors == 0 then KeysLog(keys[..n], ok, at) == Erasures(keys[..n]) else Failed(log, at)
        invariant Within(tokens, old(tokens)) && assets <= old(assets)
      {
        ghost var log0 := log;
        var done := EraseKey(keys[n], ok);
        KeysSnoc(keys, n, ok, at);
        if errors != 0 { FailedStays(log0, log, at, at); } else if !done { assert !Ok(log[|log0|]); }
        if !done { errors := errors + 1; }
      }
      assert keys[..|keys|] == keys;
      OrderlyAppend(old(log), KeysLog(keys, ok, at));
    }

    method EraseKey(key: Key, ok: nat -> bool) returns (done: bool)
      requires Settled()
      modifies this
      ensures Settled() && done == ok(|old(log)|) && log == old(log) + [Erased(key, done)]
      ensures Within(tokens, old(tokens)) && assets <= old(assets)
    {
      Elapse();
      done := ok(|log|);
      ErasingEntry(stored - gone, uploaded - lost, log, key, done);
      log := log + [Erased(key, done)];
      if done { assets := assets - {key}; }
    }

    /** revokeDeletedAccountLease or revokeDeletedAccountConnection, and the clearing after it. */
    method AttemptItem(item: Item, ok: nat -> bool) returns (done: bool)
      requires Settled()
      modifies this
      ensures Settled() && log == old(log) + ItemEntries(item, ok, |old(log)|)
      ensures if done then ItemEntries(item, ok, |old(log)|) == [Revoked(item, true), Cleared(item, true)]
              else Failed(log, |old(log)|)
      ensures Within(tokens, old(tokens)) && assets <= old(assets)
    {
      Elapse();
      done := ok(|log|);
      QuietEntry(stored - gone, uploaded - lost, log, Revoked(item, done));
      log := log + [Revoked(item, done)];
      if done {
        Elapse();
        done := ok(|log|);
        ClearingEntry(stored - gone, uploaded - lost, log, item, done);
        log := log + [Cleared(item, done)];
        if done { tokens := tokens - {item}; }
      }
      assert log == old(log) + ItemEntries(item, ok, |old(log)|);
      if !done { assert !Ok(log[|log| - 1]); }
    }

    /** One unavailable provider does not prevent the other revocations. */
    method AttemptItems(items: seq<Item>, ok: nat -> bool) returns (errors: nat)
      requires Valid()
      modifies this
      ensures Valid() && log == old(log) + ItemsLog(items, ok, |old(log)|)
      ensures if errors == 0 then ItemsLog(items, ok, |old(log)|) == Clearings(items) else Failed(log, |old(log)|)
      ensures Within(tokens, old(tokens)) && assets <= old(assets)
    {
      errors := AttemptEach(items, ok);
      ItemsLogPaired(items, ok, |old(log)|);
      OrderlyAppend(old(log), ItemsLog(items, ok, |old(log)|));
    }

    method AttemptEach(items: seq<Item>, ok: nat -> bool) returns (errors: nat)
      requires Settled()
      modifies this
      ensures Settled() && log == old(log) + ItemsLog(items, ok, |old(log)|)
      ensures if errors == 0 then ItemsLog(items, ok, |old(log)|) == Clearings(items) else Failed(log, |old(log)|)
      ensures Within(tokens, old(tokens)) && assets <= old(assets)
    {
      errors := 0;
      for n := 0 to |items|
        invariant Settled() && AttemptedTo(items, n, ok, old(log), log, errors)
        invariant Within(tokens, old(tokens)) && assets <= old(assets)
      {
        ghost var log0 := log;
        var done := AttemptItem(items[n], ok);
        AttemptedNext(items, n, ok, old(log), log0, errors, done);
        if !done { errors := errors + 1; }
      }
      assert items[..|items|] == items;
    }

    /** pendingLeases or pendingConnections: the tokens of the user that are still stored. One token may belong
        to several users, its Agent's owner and the owner of its connection. */
    method ListPending(user: UserId, leases: bool, ok: nat -> bool) returns (items: Option<seq<Item>>)
      requires Valid()
      modifies this
      ensures Valid() && log == old(log) + [Listed(user, items)] && (items.Some? <==> ok(|old(log)|))
      ensures items.Some? ==> forall i :: i in items.value <==> i in tokens && user in tokens[i] && i.TokenLease? == leases
      ensures Within(tokens, old(tokens)) && assets <= old(assets)
    {
      Elapse();
      items := None;
      if ok(|log|) {
        var found: seq<Item>, left := [], tokens.Keys;
        while left != {}
          invariant left <= tokens.Keys
          invariant forall i :: i in found <==> i in tokens && i !in left && user in tokens[i] && i.TokenLease? == leases
          decreases left
        {
          var i :| i in left;
          if user in tokens[i] && i.TokenLease? == leases { found := found + [i]; }
          left := left - {i};
        }
        items := Some(found);
      }
      Append(Listed(user, items));
    }

    method Reschedule(job: Job, now: Time, ok: nat -> bool) returns (threw: bool, ghost seen: Table)
      requires Valid()
      modifies this
      ensures Valid() && log == old(log) + [Retried(job, !threw)] && log[|log| - 1] == Retried(job, !threw)
      ensures table == if threw then seen else Retry(seen, job, now)
      ensures Within(tokens, old(tokens)) && assets <= old(assets)
    {
      Elapse();
      seen := table;
      threw := !ok(|log|);
      Append(Retried(job, !threw));
      if !threw { table := Retry(table, job, now); }
    }

    /** One listing and the attempts on what it lists. */
    method AttemptPending(user: UserId, leases: bool, ok: nat -> bool) returns (errors: nat, items: Option<seq<Item>>)
      requires Valid()
      modifies this
      ensures Valid()
      ensures log == old(log) + [Listed(user, items)] + (if items.Some? then ItemsLog(items.value, ok, |old(log)| + 1) else [])
      ensures items.Some? && errors == 0 ==> log == old(log) + [Listed(user, items)] + Clearings(items.value)
      ensures items.None? || errors != 0 ==> Failed(log, |old(log)|)
      ensures items.Some? ==> forall i :: i in items.value ==> Tried(log, |old(log)|, i)
      ensures items.Some? ==> forall i :: i in tokens && user in tokens[i] && i.TokenLease? == leases ==> i in items.value
      ensures Within(tokens, old(tokens)) && assets <= old(assets)
    {
      errors := 0;
      items := ListPending(user, leases, ok);
      if items.None? {
        assert !Ok(log[|old(log)|]);
        return;
      }
      ghost var base := log;
      errors := AttemptItems(items.value, ok);
      if errors != 0 { FailedStays(log, log, |base|, |old(log)|); }
      forall i | i in items.value ensures Tried(log, |old(log)|, i) {
        ItemsTried(base, items.value, ok, i);
        TriedStays(log, log, |base|, |old(log)|, i);
      }
    }

    /** The attempts of one pass. `errors` counts the failures, `threw` is a listing that failed. */
    method AttemptAll(job: Job, ok: nat -> bool)
      returns (errors: nat, threw: bool, ghost leases: seq<Item>, ghost connections: seq<Item>)
      requires Valid()
      modifies this
      ensures Valid() && old(log) + KeysLog(job.keys, ok, |old(log)|) <= log
      ensures if !threw && errors == 0 then log == old(log) + FullAttempts(job, leases, connections)
              else Failed(log, |old(log)|)
      ensures Attempted(tokens, job.user, log, |old(log)|)
      ensures !threw ==> forall i :: i in tokens && job.user in tokens[i] ==> i in leases || i in connections
      ensures Within(tokens, old(tokens)) && assets <= old(assets)
    {
      leases, connections, threw := [], [], true;
      errors := EraseKeys(job.keys, ok);
      ghost var log0 := log;
      var failed, first := AttemptPending(job.user, true, ok);
      errors := errors + failed;
      if first.None? {
        assert log[|log0|] == Listed(job.user, None);
        FailedStays(log, log, |log0|, |old(log)|);
        return;
      }
      ghost var log1 := log;
      var second;
      failed, second := AttemptPending(job.user, false, ok);
      errors := errors + failed;
      if second.None? {
        assert log[|log1|] == Listed(job.user, None);
        FailedStays(log, log, |log1|, |old(log)|);
        return;
      }
      leases, connections, threw := first.value, second.value, false;
      LeftWasTried(tokens, job.user, log1, log, |log0|, |old(log)|, leases, connections);
      if errors == 0 {
        FullFrom(old(log), job, leases, connections);
      }
    }

    lemma NothingIsLeft(job: Job, before: seq<Entry>, leases: seq<Item>, connections: seq<Item>)
      requires Valid() && log == before + FullAttempts(job, leases, connections)
      requires forall i :: i in tokens && job.user in tokens[i] ==> i in leases || i in connections
      ensures Gone(job)
    {
      NothingLeft(stored - gone, uploaded - lost, log, before, job, leases, connections);
    }

    /** The end of a pass in which every attempt succeeded. */
    method Conclude(
        job: Job, now: Time, ok: nat -> bool,
        ghost before: seq<Entry>, ghost leases: seq<Item>, ghost connections: seq<Item>)
      returns (finished: bool, threw: bool, ghost seen: Table)
      requires Valid() && log == before + FullAttempts(job, leases, connections)
      requires before != [] && before[|before| - 1] == Took(job)
      requires Gone(job)
      modifies this
      ensures Valid() && old(log) <= log && Gone(job)
      ensures finished ==> !threw && table == Finish(seen, job)
                           && log == old(log) + [Published(job.user, true), Finished(job, true)]
      ensures !finished ==> Failed(log, |old(log)|)
      ensures !finished ==>
                log[|log| - 1] == Retried(job, !threw) && table == if threw then seen else Retry(seen, job, now)
      ensures Within(tokens, old(tokens)) && assets <= old(assets)
    {
      finished, threw := false, false;
      Elapse();
      var published := ok(|log|);
      Append(Published(job.user, published));
      if published { finished := AppendFinish(job, ok, before, leases, connections); }
      seen := table;
      if finished {
        table := Finish(table, job);
      } else {
        ghost var log0 := log;
        threw, seen := Reschedule(job, now, ok);
        assert !Ok(log[|log0| - 1]);
      }
    }

    method AppendFinish(
        job: Job, ok: nat -> bool, ghost before: seq<Entry>, ghost leases: seq<Item>, ghost connections: seq<Item>)
      returns (finished: bool)
      requires Valid() && before != [] && before[|before| - 1] == Took(job)
      requires log == before + FullAttempts(job, leases, connections) + [Published(job.user, true)]
      modifies this
      ensures Valid() && log == old(log) + [Finished(job, finished)]
      ensures Within(tokens, old(tokens)) && assets <= old(assets)
    {
      Elapse();
      finished := ok(|log|);
      ghost var earlier := before[..|before| - 1];
      assert before == earlier + [Took(job)];
      OrderlyFinish(log, earlier, job, leases, connections, finished);
      QuietEntry(stored - gone, uploaded - lost, log, Finished(job, finished));
      log := log + [Finished(job, finished)];
    }

    /** One job. It is finished exactly when every call of the pass succeeded, and then no file and no token of
        the user is left; otherwise it is kept for later. Every token that is left was tried. `seen` is the
        table at the last call. */
    method ProcessJob(job: Job, now: Time, ok: nat -> bool) returns (finished: bool, threw: bool, ghost seen: Table)
      requires Valid() && log != [] && log[|log| - 1] == Took(job)
      modifies this
      ensures Valid() && old(log) + KeysLog(job.keys, ok, |old(log)|) <= log
      ensures finished <==> !Failed(log, |old(log)|)
      ensures finished ==>
                !threw && log[|log| - 1] == Finished(job, true) && table == Finish(seen, job) && Gone(job)
      ensures !finished ==>
                log[|log| - 1] == Retried(job, !threw) && table == if threw then seen else Retry(seen, job, now)
      ensures Attempted(tokens, job.user, log, |old(log)|)
      ensures Within(tokens, old(tokens)) && assets <= old(assets)
    {
      finished := false;
      var errors;
      ghost var leases, connections;
      errors, threw, leases, connections := AttemptAll(job, ok);
      ghost var log1, tokens1 := log, tokens;
      if threw || errors != 0 {
        threw, seen := Reschedule(job, now, ok);
      } else {
        NothingIsLeft(job, old(log), leases, connections);
        finished, threw, seen := Conclude(job, now, ok, old(log), leases, connections);
      }
      JobFailedIff(old(log), log1, log, job, leases, connections, finished);
      AttemptedStays(tokens1, tokens, job.user, log1, log, |old(log)|);
    }

    /** One invocation, with other workers at every await: at most ten jobs. It reports no failure exactly when
        every call it made succeeded, and then no file and no token of the users whose jobs it took is left; what
        is removed at all was revoked before (Valid, GoneWasRevoked). */
    method ProcessAccountDeletionCleanup(firstId: ClaimId, now: Time, ok: nat -> bool)
      returns (jobs: seq<Job>, failures: nat, threw: bool)
      requires Valid()
      modifies this
      ensures Valid() && old(log) <= log && |jobs| <= MAX_JOBS && failures <= |jobs|
      ensures failures == 0 && !threw <==> !Failed(log, |old(log)|)
      ensures failures == 0 && !threw ==> forall j :: j in jobs ==> Gone(j)
      ensures |jobs| < MAX_JOBS && !threw ==> forall u :: u in table ==> !Due(table[u], now)
    {
      jobs, failures, threw := [], 0, false;
      var idle := false;
      while |jobs| < MAX_JOBS && !idle && !threw
        invariant Valid() && old(log) <= log && |jobs| <= MAX_JOBS && failures <= |jobs|
        invariant failures == 0 && !threw <==> !Failed(log, |old(log)|)
        invariant failures == 0 && !threw ==> forall j :: j in jobs ==> Gone(j)
        invariant idle && !threw ==> forall u :: u in table ==> !Due(table[u], now)
        decreases MAX_JOBS - |jobs|, if idle || threw then 0 else 1
      {
        var job;
        ghost var seen;
        ghost var log0 := log;
        job, threw, seen := ClaimNext(firstId + |jobs|, now, ok);
        if job.None? {
          idle := true;
          FailedSplit(log0, log, log, |old(log)|);
        } else {
          var finished;
          ghost var log1 := log;
          finished, threw, seen := ProcessJob(job.value, now, ok);
          FailedSplit(log0, log1, log, |old(log)|);
          if !finished { failures := failures + 1; }
          jobs := jobs + [job.value];
        }
      }
    }
  }
}
