/** The claim/complete/release protocol around one provider credential (refreshConnectionToken and its
    repository calls), for any number of callers interleaved at the awaits. */
module CredentialRefresh {
  import opened Options
  import opened Runs
  import opened Sequences

  type Time = int
  type ClaimId = nat
  type Tokens = nat

  const CLAIM_LASTS: Time := 15000
  const STILL_GOOD: Time := 30000

  datatype Claim = Claim(id: ClaimId, expiresAt: Time)

  datatype Credential = Credential(
    version: nat, tokens: Tokens, expiresAt: Option<Time>, claim: Option<Claim>, active: bool)

  // --------------------------------------------------------------- repository calls

  predicate Claimable(c: Credential, version: nat, now: Time) {
    c.active && c.version == version && (c.claim.Some? ==> c.claim.value.expiresAt <= now)
  }

  function ClaimRefresh(c: Credential, version: nat, id: ClaimId, now: Time): Credential {
    if Claimable(c, version, now) then c.(claim := Some(Claim(id, now + CLAIM_LASTS))) else c
  }

  predicate Holds(c: Credential, version: nat, id: ClaimId) {
    c.active && c.version == version && c.claim.Some? && c.claim.value.id == id
  }

  function CompleteRefresh(c: Credential, version: nat, id: ClaimId, tokens: Tokens, expiresAt: Option<Time>): Credential {
    if Holds(c, version, id)
    then c.(version := version + 1, tokens := tokens, expiresAt := expiresAt, claim := None) else c
  }

  function ReleaseRefresh(c: Credential, version: nat, id: ClaimId): Credential {
    if Holds(c, version, id) then c.(claim := None) else c
  }

  function RevokeCredential(c: Credential): Credential {
    if c.active then c.(active := false, claim := None) else c
  }

  /** revokeConnection: the credential is revoked, and whatever claim it has is left. */
  function RevokeConnection(c: Credential): Credential {
    c.(active := false)
  }

  /** upsertProviderCredential: a reconnected account, numbered from the credential read before. */
  function Reconnected(readVersion: nat, tokens: Tokens, expiresAt: Option<Time>): Credential {
    Credential(readVersion + 1, tokens, expiresAt, None, true)
  }

  /** The stored token is returned without a refresh. */
  predicate GoodEnough(c: Credential, now: Time) {
    c.expiresAt.Some? && c.expiresAt.value > now + STILL_GOOD
  }

  // -------------------------------------------------------------------------- runs

  /** A caller between a successful claim and its last call. */
  datatype Caller = Caller(version: nat, claimedAt: Time)

  datatype Store = Store(row: Credential, clock: Time, waiting: map<ClaimId, Caller>, used: set<ClaimId>)

  datatype Event =
    | Tick(time: Time)
    | TryClaim(read: nat, id: ClaimId, now: Time)
    | Complete(id: ClaimId, tokens: Tokens, expiresAt: Option<Time>)
    | Release(id: ClaimId)
    | Abandon(id: ClaimId)
    | InvalidGrant(id: ClaimId)
    | Disconnect
    | Reconnect(read: nat, tokens: Tokens, expiresAt: Option<Time>)

  type History = h: seq<Store> | h != [] witness [START]

  const START := Store(Credential(1, 0, None, None, true), 0, map[], {})

  function Last(h: History): Store {
    h[|h| - 1]
  }

  predicate Possible(h: History, e: Event) {
    var last := Last(h);
    match e
    case Tick(time) => last.clock <= time
    case TryClaim(read, id, now) =>
      read < |h| && id !in last.used && now <= last.clock && !GoodEnough(h[read].row, now)
    case Complete(id, _, _) => id in last.waiting
    case Release(id) => id in last.waiting
    case Abandon(id) => id in last.waiting
    case InvalidGrant(id) => id in last.waiting
    case Disconnect => true
    case Reconnect(read, _, _) => read < |h|
  }

  predicate Completes(s: Store, e: Event) {
    e.Complete? && e.id in s.waiting && Holds(s.row, s.waiting[e.id].version, e.id)
  }

  function After(h: History, e: Event): Store
    requires Possible(h, e)
  {
    var s := Last(h);
    match e
    case Tick(time) => s.(clock := time)
    case TryClaim(read, id, now) =>
      var version := h[read].row.version;
      if Claimable(s.row, version, now)
      then s.(row := ClaimRefresh(s.row, version, id, now), waiting := s.waiting[id := Caller(version, now)],
              used := s.used + {id})
      else s.(used := s.used + {id})
    case Complete(id, tokens, expiresAt) =>
      if Completes(s, e)
      then s.(row := CompleteRefresh(s.row, s.waiting[id].version, id, tokens, expiresAt), waiting := s.waiting - {id})
      else s
    case Release(id) => s.(row := ReleaseRefresh(s.row, s.waiting[id].version, id), waiting := s.waiting - {id})
    case Abandon(id) => s.(waiting := s.waiting - {id})
    case InvalidGrant(id) => s.(row := RevokeCredential(s.row), waiting := s.waiting - {id})
    case Disconnect => s.(row := RevokeConnection(s.row))
    case Reconnect(read, tokens, expiresAt) => s.(row := Reconnected(h[read].row.version, tokens, expiresAt))
  }

  /** A reconnection numbers the credential from the version that is still stored. */
  predicate Fresh(h: History, e: Event)
    requires Possible(h, e)
  {
    e.Reconnect? ==> h[e.read].row.version == Last(h).row.version
  }

  /** A reconnection does not number the credential below the version that is stored. */
  predicate KeepsVersion(h: History, e: Event)
    requires Possible(h, e)
  {
    e.Reconnect? ==> Last(h).row.version <= h[e.read].row.version + 1
  }

  ghost function Steps(): (seq<Store>, Event, Store) -> bool {
    (h: seq<Store>, e: Event, next: Store) => h != [] && Possible(h, e) && next == After(h, e)
  }

  ghost function FreshSteps(): (seq<Store>, Event, Store) -> bool {
    (h: seq<Store>, e: Event, next: Store) => h != [] && Possible(h, e) && next == After(h, e) && Fresh(h, e)
  }

  ghost predicate IsRun(h: History, es: seq<Event>) {
    RunOf(h, es, START, Steps())
  }

  ghost predicate IsFreshRun(h: History, es: seq<Event>) {
    RunOf(h, es, START, FreshSteps())
  }

  // ------------------------------------------------------------------- what every run keeps

  predicate HeldBy(c: Credential, id: ClaimId) {
    c.claim.Some? && c.claim.value.id == id
  }

  /** What holds of every state: claims are by known callers, for the version they name. */
  predicate Sound(s: Store) {
    && s.waiting.Keys <= s.used
    && (s.row.claim.Some? ==> s.row.claim.value.id in s.used)
    && (forall c :: c in s.waiting ==>
          s.waiting[c].claimedAt <= s.clock
          && (HeldBy(s.row, c) ==> s.waiting[c].version == s.row.version
                                   && s.row.claim.value.expiresAt == s.waiting[c].claimedAt + CLAIM_LASTS))
  }

  /** A claim that is not held now is not held later. */
  predicate LostStaysLost(s: Store, t: Store) {
    s.used <= t.used && forall c :: c in s.used && !HeldBy(s.row, c) ==> !HeldBy(t.row, c)
  }

  lemma StepSound(h: History, e: Event)
    requires Possible(h, e) && Sound(Last(h))
    ensures Sound(After(h, e)) && LostStaysLost(Last(h), After(h, e))
  {
  }

  ghost predicate SoundHistory(h: seq<Store>) {
    && (forall i :: 0 <= i < |h| ==> Sound(h[i]))
    && (forall i, j :: 0 <= i <= j < |h| ==> LostStaysLost(h[i], h[j]))
  }

  ghost function AlwaysSound(): (seq<Store>, seq<Event>) -> bool {
    (h: seq<Store>, es: seq<Event>) => h != [] && SoundHistory(h)
  }

  lemma LostTransitive(a: Store, b: Store, c: Store)
    requires LostStaysLost(a, b) && LostStaysLost(b, c)
    ensures LostStaysLost(a, c)
  {
  }

  lemma SoundStep(h: History, e: Event, next: Store)
    requires SoundHistory(h) && Steps()(h, e, next)
    ensures SoundHistory(h + [next])
  {
    StepSound(h, e);
    var g := h + [next];
    forall i, j | 0 <= i <= j < |g| ensures LostStaysLost(g[i], g[j]) {
      if j == |h| && i < |h| {
        assert LostStaysLost(h[i], h[|h| - 1]);
        LostTransitive(h[i], Last(h), next);
      }
    }
  }

  lemma RunsAreSound(h: History, es: seq<Event>)
    requires IsRun(h, es)
    ensures SoundHistory(h)
  {
    forall g, e, next {:trigger Steps()(g, e, next)} | g != [] && SoundHistory(g) && Steps()(g, e, next)
      ensures SoundHistory(g + [next])
    {
      SoundStep(g, e, next);
    }
    Induction(h, es, START, Steps(), AlwaysSound());
  }

  lemma FreshRunIsRun(h: History, es: seq<Event>)
    requires IsFreshRun(h, es)
    ensures IsRun(h, es)
  {
    Widen(h, es, START, FreshSteps(), Steps());
  }

  /** A caller whose claim was taken over (or given up, or finished) can never again complete with it
      or release anybody's claim. */
  lemma LostClaimIsInert(h: History, es: seq<Event>, i: nat, j: nat, id: ClaimId, version: nat,
                         tokens: Tokens, expiresAt: Option<Time>)
    requires IsRun(h, es) && i <= j < |h| && id in h[i].used && !HeldBy(h[i].row, id)
    ensures CompleteRefresh(h[j].row, version, id, tokens, expiresAt) == h[j].row
    ensures ReleaseRefresh(h[j].row, version, id) == h[j].row
  {
    RunsAreSound(h, es);
    assert LostStaysLost(h[i], h[j]);
  }

  /** Only the claim that is held completes, and completing is final: no caller completes twice. */
  lemma CompletesAtMostOnce(h: History, es: seq<Event>, n: nat, m: nat)
    requires IsRun(h, es) && n < m < |es| && Completes(h[n], es[n]) && Completes(h[m], es[m])
    ensures es[n].id != es[m].id
  {
    RunsAreSound(h, es);
    StepAt(h, es, START, Steps(), n);
    var g: History := h[..n + 1];
    assert Steps()(g, es[n], h[n + 1]) && Last(g) == h[n];
    assert !HeldBy(h[n + 1].row, es[n].id) && LostStaysLost(h[n + 1], h[m]) && Sound(h[n]);
  }

  // -------------------------------------------------- one completion for each version

  /** The stored version drops at a reconnection that was numbered two or more below it, and at no other
      event: the caller can compare the version it read with the stored one. */
  lemma VersionDropsIff(h: History, e: Event)
    requires Possible(h, e)
    ensures After(h, e).row.version < Last(h).row.version <==> !KeepsVersion(h, e)
    ensures Completes(Last(h), e) ==> After(h, e).row.version == Last(h).row.version + 1
  {
  }

  lemma RunStep(h: History, es: seq<Event>, n: nat)
    requires IsRun(h, es) && n < |es|
    ensures |h| == |es| + 1 && Possible(h[..n + 1], es[n]) && h[n + 1] == After(h[..n + 1], es[n])
    ensures Last(h[..n + 1]) == h[n]
  {
    StepAt(h, es, START, Steps(), n);
    assert Steps()(h[..n + 1], es[n], h[n + 1]);
  }

  lemma {:induction false} VersionKept(h: History, es: seq<Event>, i: nat, j: nat)
    requires IsRun(h, es) && i <= j <= |es| == |h| - 1
    requires forall k :: i <= k < j ==> Possible(h[..k + 1], es[k]) && KeepsVersion(h[..k + 1], es[k])
    ensures h[i].row.version <= h[j].row.version
    decreases j - i
  {
    if i < j {
      VersionKept(h, es, i, j - 1);
      RunStep(h, es, j - 1);
      VersionDropsIff(h[..j], es[j - 1]);
    }
  }

  /** Between two completions of one version, or of a version and then an earlier one, there is a
      reconnection that dropped the version; so without one, each version is completed at most once. */
  lemma OneCompletionPerVersion(h: History, es: seq<Event>, n: nat, m: nat)
    requires IsRun(h, es) && n < m < |es| && Completes(h[n], es[n]) && Completes(h[m], es[m])
    requires forall k :: n < k < m ==> Possible(h[..k + 1], es[k]) && KeepsVersion(h[..k + 1], es[k])
    ensures h[n].row.version < h[m].row.version
  {
    RunStep(h, es, n);
    VersionDropsIff(h[..n + 1], es[n]);
    VersionKept(h, es, n + 1, m);
  }

  /** Versions are used without gaps, from the first on. */
  predicate NoGap(h: seq<Store>, v: nat) {
    exists i :: 0 <= i < |h| && h[i].row.version == v
  }

  ghost function NoGaps(): (seq<Store>, seq<Event>) -> bool {
    (h: seq<Store>, es: seq<Event>) =>
      forall i, v: nat :: 0 <= i < |h| && 1 <= v <= h[i].row.version ==> NoGap(h, v)
  }

  lemma NoGapsStep(h: seq<Store>, es: seq<Event>, e: Event, next: Store)
    requires NoGaps()(h, es) && Steps()(h, e, next)
    ensures NoGaps()(h + [next], es + [e])
  {
    var g := h + [next];
    assert g[|h|] == next && g[|h| - 1] == h[|h| - 1];
    forall i, v: nat | 0 <= i < |g| && 1 <= v <= g[i].row.version ensures NoGap(g, v) {
      if i == |h| && v == next.row.version {
        assert g[i].row.version == v;
      } else {
        var j := if i < |h| then i else if e.Reconnect? then e.read else |h| - 1;
        assert v <= h[j].row.version && NoGap(h, v);
        var k :| 0 <= k < |h| && h[k].row.version == v;
        assert g[k].row.version == v;
      }
    }
  }

  lemma SomeStateHas(h: History, es: seq<Event>, i: nat, v: nat) returns (k: nat)
    requires IsRun(h, es) && i < |h| && 1 <= v <= h[i].row.version
    ensures k < |h| && h[k].row.version == v
  {
    forall g, fs, e, next {:trigger Steps()(g, e, next), NoGaps()(g, fs)} | NoGaps()(g, fs) && Steps()(g, e, next)
      ensures NoGaps()(g + [next], fs + [e])
    {
      NoGapsStep(g, fs, e, next);
    }
    Induction(h, es, START, Steps(), NoGaps());
    assert NoGap(h, v);
    k :| 0 <= k < |h| && h[k].row.version == v;
  }

  lemma VersionsArePositive(h: History, es: seq<Event>, i: nat)
    requires IsRun(h, es) && i < |h|
    ensures h[i].row.version >= 1
    decreases i
  {
    if i == 0 {
      FirstState(h, es, START, Steps());
    } else {
      VersionsArePositive(h, es, i - 1);
      RunStep(h, es, i - 1);
    }
  }

  /** The run goes on, without dropping the version again, to a second completion of version v. */
  ghost predicate CompletesAgain(h: History, es: seq<Event>, g: seq<Store>, fs: seq<Event>, v: nat) {
    && RunOf(g, fs, START, Steps()) && h <= g && es <= fs && |h| == |es| + 1
    && (forall k :: |es| <= k < |fs| ==> Possible(g[..k + 1], fs[k]) && KeepsVersion(g[..k + 1], fs[k]))
    && exists m :: |es| <= m < |fs| && Completes(g[m], fs[m]) && g[m].row.version == v
  }

  /** Reconnecting from a state with version v - 1 and refreshing completes v, if the version has not
      passed v. */
  lemma CompleteVersion(h: History, es: seq<Event>, i: nat, v: nat) returns (g: seq<Store>, fs: seq<Event>)
    requires IsRun(h, es) && |h| == |es| + 1 && i < |h| && h[i].row.version == v - 1 && Last(h).row.version <= v
    ensures CompletesAgain(h, es, g, fs, v)
  {
    var id := FreshNat(Last(h).used);
    var e0, e1, e2 := Reconnect(i, 0, None), TryClaim(|h|, id, Last(h).clock), Complete(id, 0, None);
    var g1, fs1 := Snoc(h, es, e0, After(h, e0), START, Steps());
    assert Last(g1).row == Credential(v, 0, None, None, true) && id !in Last(g1).used;
    var g2, fs2 := Snoc(g1, fs1, e1, After(g1, e1), START, Steps());
    assert Completes(Last(g2), e2);
    g, fs := Snoc(g2, fs2, e2, After(g2, e2), START, Steps());
    ContinuesKeeping(h, es, g, fs, e0, e1, e2);
  }

  lemma ContinuesKeeping(h: History, es: seq<Event>, g: seq<Store>, fs: seq<Event>, e0: Event, e1: Event, e2: Event)
    requires |h| == |es| + 1 && |g| == |h| + 3 && h <= g && fs == es + [e0] + [e1] + [e2]
    requires RunOf(g, fs, START, Steps())
    requires e0.Reconnect? && e1.TryClaim? && e2.Complete?
    requires Possible(h, e0) && KeepsVersion(h, e0)
    ensures forall k :: |es| <= k < |fs| ==> Possible(g[..k + 1], fs[k]) && KeepsVersion(g[..k + 1], fs[k])
  {
    forall k | |es| <= k < |fs| ensures Possible(g[..k + 1], fs[k]) && KeepsVersion(g[..k + 1], fs[k]) {
      RunStep(g, fs, k);
      if k == |es| { assert g[..k + 1] == h; }
    }
  }

  /** After version v has been completed, in any run at all, the run can go on without dropping the version
      to complete v once more exactly when the stored version is not above v. */
  lemma SecondCompletionIff(h: History, es: seq<Event>, n: nat)
    requires IsRun(h, es) && n < |es| && Completes(h[n], es[n])
    ensures (exists g, fs :: CompletesAgain(h, es, g, fs, h[n].row.version)) <==> Last(h).row.version <= h[n].row.version
  {
    var v := h[n].row.version;
    RunStep(h, es, n);
    VersionsArePositive(h, es, |h| - 1);
    if Last(h).row.version <= v {
      if v == 1 { VersionTwoStays(h, es, n + 1, |h| - 1); }
      VersionsArePositive(h, es, n);
      var i := SomeStateHas(h, es, n, v - 1);
      var g, fs := CompleteVersion(h, es, i, v);
    }
    if g: seq<Store>, fs: seq<Event> :| CompletesAgain(h, es, g, fs, v) {
      var m :| |es| <= m < |fs| && Completes(g[m], fs[m]) && g[m].row.version == v;
      VersionKept(g, fs, |es|, m);
      assert g[|es|] == Last(h);
    }
  }

  /** The first version is never stored again. */
  lemma {:induction false} VersionTwoStays(h: History, es: seq<Event>, i: nat, j: nat)
    requires IsRun(h, es) && i <= j <= |es| == |h| - 1 && h[i].row.version >= 2
    ensures h[j].row.version >= 2
    decreases j - i
  {
    if i < j {
      VersionTwoStays(h, es, i, j - 1);
      RunStep(h, es, j - 1);
      if es[j - 1].Reconnect? { VersionsArePositive(h, es, es[j - 1].read); }
    }
  }

  // ------------------------------------------------------------- callers do not overlap

  /** A waiting caller either still holds the claim of its version, or its 15 seconds are over. */
  predicate Exclusive(s: Store) {
    forall c :: c in s.waiting ==>
      s.waiting[c].version <= s.row.version
      && (s.row.active && s.waiting[c].version == s.row.version ==>
            HeldBy(s.row, c) || s.waiting[c].claimedAt + CLAIM_LASTS <= s.clock)
  }

  lemma ExclusiveStep(h: History, e: Event)
    requires Possible(h, e) && Fresh(h, e) && Sound(Last(h)) && Exclusive(Last(h))
    ensures Exclusive(After(h, e))
  {
    if e.Reconnect? {
      assert forall c :: c in Last(h).waiting ==> Last(h).waiting[c].version <= Last(h).row.version;
    }
  }

  ghost function AlwaysExclusive(): (seq<Store>, seq<Event>) -> bool {
    (h: seq<Store>, es: seq<Event>) => h != [] && SoundHistory(h) && Exclusive(Last(h))
  }

  lemma FreshRunsAreExclusive(h: History, es: seq<Event>)
    requires IsFreshRun(h, es)
    ensures Sound(Last(h)) && Exclusive(Last(h))
  {
    forall g, fs, e, next {:trigger FreshSteps()(g, e, next), AlwaysExclusive()(g, fs)} |
      AlwaysExclusive()(g, fs) && FreshSteps()(g, e, next)
      ensures AlwaysExclusive()(g + [next], fs + [e])
    {
      SoundStep(g, e, next);
      ExclusiveStep(g, e);
    }
    Induction(h, es, START, FreshSteps(), AlwaysExclusive());
  }

  /** While one caller is still at the provider, another caller gets the claim for the same version only
      after the first caller's 15 seconds: the refresh token is not used twice at a time before that. */
  lemma TakeoverWaits(h: History, es: seq<Event>, e: Event, c: ClaimId)
    requires IsFreshRun(h, es) && e.TryClaim? && Possible(h, e)
    requires Claimable(Last(h).row, h[e.read].row.version, e.now)
    requires c in Last(h).waiting && Last(h).waiting[c].version == h[e.read].row.version
    ensures Last(h).waiting[c].claimedAt + CLAIM_LASTS <= Last(h).clock
  {
    FreshRunsAreExclusive(h, es);
  }

  // ------------------------------------------------------------------------- what fails

  /** Version 1 is completed by caller 10. */
  lemma FirstCompletion() returns (h: History, es: seq<Event>)
    ensures IsRun(h, es) && es == [TryClaim(0, 10, 0), Complete(10, 1, None)] && |h| == 3 && h[0] == START
    ensures h[2] == Store(Credential(2, 1, None, None, true), 0, map[], {10})
  {
    var e0, e1 := TryClaim(0, 10, 0), Complete(10, 1, None);
    var s0: History := [START];
    var s1, fs1 := Snoc(s0, [], e0, After(s0, e0), START, Steps());
    assert Last(s1) == Store(Credential(1, 0, None, Some(Claim(10, 15000)), true), 0, map[10 := Caller(1, 0)], {10});
    h, es := Snoc(s1, fs1, e1, After(s1, e1), START, Steps());
    assert Last(h).waiting == map[];
  }

  /** Version 2 is completed by caller 11, and the account is reconnected from the first read. */
  lemma OutdatedReconnection() returns (h: History, es: seq<Event>)
    ensures IsRun(h, es) && |h| == 6 && es[3] == Complete(11, 2, None) && es[4] == Reconnect(0, 3, None)
    ensures |es| == 5 && Completes(h[3], es[3]) && h[3].row.version == 2
    ensures h[5] == Store(Credential(2, 3, None, None, true), 0, map[], {10, 11})
  {
    h, es := FirstCompletion();
    var e2, e3, e4 := TryClaim(2, 11, 0), Complete(11, 2, None), Reconnect(0, 3, None);
    h, es := Snoc(h, es, e2, After(h, e2), START, Steps());
    assert Last(h) == Store(Credential(2, 1, None, Some(Claim(11, 15000)), true), 0, map[11 := Caller(2, 0)], {10, 11});
    h, es := Snoc(h, es, e3, After(h, e3), START, Steps());
    assert Last(h).row == Credential(3, 2, None, None, true) && Last(h).waiting == map[];
    h, es := Snoc(h, es, e4, After(h, e4), START, Steps());
  }

  /** A reconnection numbered from an outdated read lets the same version be completed again. */
  lemma StaleReconnectRepeatsVersion() returns (h: History, es: seq<Event>)
    ensures IsRun(h, es) && |es| == 7
    ensures Completes(h[3], es[3]) && Completes(h[6], es[6]) && h[3].row.version == h[6].row.version == 2
  {
    h, es := OutdatedReconnection();
    var e5, e6 := TryClaim(5, 12, 0), Complete(12, 4, None);
    h, es := Snoc(h, es, e5, After(h, e5), START, Steps());
    assert Last(h).row == Credential(2, 3, None, Some(Claim(12, 15000)), true);
    h, es := Snoc(h, es, e6, After(h, e6), START, Steps());
  }

  // ---------------------------------------------------------- revoking what others refreshed

  /** The event stores new tokens. */
  predicate Writes(s: Store, e: Event) {
    Completes(s, e) || e.Reconnect?
  }

  /** New tokens were stored by an event from position i to before j. */
  ghost predicate WrittenBetween(h: seq<Store>, es: seq<Event>, i: nat, j: nat)
    requires j <= |es| && |h| == |es| + 1
  {
    exists k :: i <= k < j && Writes(h[k], es[k])
  }

  /** Caller id got the claim at position n. */
  predicate ClaimedAt(h: seq<Store>, es: seq<Event>, n: nat, id: ClaimId) {
    && |h| == |es| + 1 && n < |es| && es[n].TryClaim? && es[n].id == id && es[n].read <= n
    && Claimable(h[n].row, h[es[n].read].row.version, es[n].now)
  }

  lemma RecordKept(h: History, e: Event, id: ClaimId)
    requires Possible(h, e) && Sound(Last(h)) && id in Last(h).used
    ensures id in After(h, e).used
    ensures id in After(h, e).waiting ==> id in Last(h).waiting && After(h, e).waiting[id] == Last(h).waiting[id]
  {
  }

  /** A waiting caller has been waiting since its claim, with what it claimed. */
  lemma {:induction false} WaitingSinceClaim(h: History, es: seq<Event>, n: nat, id: ClaimId, j: nat)
    requires IsRun(h, es) && ClaimedAt(h, es, n, id) && n < j < |h| && id in h[j].waiting
    ensures id in h[n + 1].waiting && h[j].waiting[id] == h[n + 1].waiting[id] == Caller(h[n].row.version, es[n].now)
    ensures h[n + 1].row == ClaimRefresh(h[n].row, h[n].row.version, id, es[n].now) && id in h[j].used
    decreases j
  {
    RunStep(h, es, n);
    if n + 1 < j {
      RunStep(h, es, j - 1);
      RunsAreSound(h, es);
      IdStaysUsed(h, es, n + 1, j - 1, id);
      RecordKept(h[..j], es[j - 1], id);
      WaitingSinceClaim(h, es, n, id, j - 1);
    }
  }

  lemma IdStaysUsed(h: History, es: seq<Event>, i: nat, j: nat, id: ClaimId)
    requires IsRun(h, es) && i <= j < |h| && id in h[i].used
    ensures id in h[j].used
  {
    RunsAreSound(h, es);
    assert LostStaysLost(h[i], h[j]);
  }

  /** An account was reconnected by an event from position i to before j. */
  ghost predicate ReconnectedBetween(es: seq<Event>, i: nat, j: nat)
    requires j <= |es|
  {
    exists k :: i <= k < j && es[k].Reconnect?
  }

  /** Without a reconnection, tokens are stored only by completions, which raise the version. */
  lemma {:induction false} CompletionsRaise(h: History, es: seq<Event>, i: nat, j: nat)
    requires IsRun(h, es) && i <= j <= |es| == |h| - 1 && !ReconnectedBetween(es, i, j)
    ensures h[i].row.version <= h[j].row.version
    ensures WrittenBetween(h, es, i, j) <==> h[i].row.version != h[j].row.version
    decreases j
  {
    if i < j {
      assert !ReconnectedBetween(es, i, j - 1) && !es[j - 1].Reconnect?;
      CompletionsRaise(h, es, i, j - 1);
      RunStep(h, es, j - 1);
      assert h[j].row.version == h[j - 1].row.version + (if Writes(h[j - 1], es[j - 1]) then 1 else 0);
      if k :| i <= k < j && Writes(h[k], es[k]) { assert k < j - 1 ==> WrittenBetween(h, es, i, j - 1); }
    }
  }

  /** In every run, an `invalid_grant` revokes tokens that somebody stored after the caller's claim exactly
      when the credential is active, and either has another version than the caller claimed or belongs to an
      account that was reconnected since (which may store new tokens under the claimed version). */
  lemma InvalidGrantRevokesNewerIff(h: History, es: seq<Event>, n: nat, e: Event)
    requires IsRun(h, es) && e.InvalidGrant? && Possible(h, e) && ClaimedAt(h, es, n, e.id)
    ensures (Last(h).row.active && !After(h, e).row.active && WrittenBetween(h, es, n + 1, |es|))
       <==> (Last(h).row.active
             && (Last(h).row.version != Last(h).waiting[e.id].version || ReconnectedBetween(es, n + 1, |es|)))
  {
    WaitingSinceClaim(h, es, n, e.id, |h| - 1);
    if ReconnectedBetween(es, n + 1, |es|) {
      var k :| n + 1 <= k < |es| && es[k].Reconnect?;
      assert Writes(h[k], es[k]);
    } else {
      CompletionsRaise(h, es, n + 1, |es|);
    }
  }

  /** If no reconnection is outdated, the versions tell alone. */
  lemma FreshVersionsTell(h: History, es: seq<Event>, n: nat, e: Event)
    requires IsFreshRun(h, es) && e.InvalidGrant? && Possible(h, e) && ClaimedAt(h, es, n, e.id)
    ensures (Last(h).row.active && !After(h, e).row.active && WrittenBetween(h, es, n + 1, |es|))
       <==> (Last(h).row.active && Last(h).row.version != Last(h).waiting[e.id].version)
  {
    FreshRunIsRun(h, es);
    WaitingSinceClaim(h, es, n, e.id, |h| - 1);
    FreshWritesRaise(h, es, n + 1, |es|);
  }

  lemma {:induction false} FreshWritesRaise(h: History, es: seq<Event>, i: nat, j: nat)
    requires IsFreshRun(h, es) && i <= j <= |es| == |h| - 1
    ensures h[i].row.version <= h[j].row.version
    ensures WrittenBetween(h, es, i, j) <==> h[i].row.version != h[j].row.version
    decreases j
  {
    if i < j {
      FreshWritesRaise(h, es, i, j - 1);
      StepAt(h, es, START, FreshSteps(), j - 1);
      assert FreshSteps()(h[..j], es[j - 1], h[j]) && Last(h[..j]) == h[j - 1];
      assert h[j].row.version == h[j - 1].row.version + (if Writes(h[j - 1], es[j - 1]) then 1 else 0);
      if k :| i <= k < j && Writes(h[k], es[k]) { assert k < j - 1 ==> WrittenBetween(h, es, i, j - 1); }
    }
  }

  /** While the claim of a waiting caller lasts and no account is reconnected, nobody else can store tokens. */
  predicate Guarded(s: Store, id: ClaimId, version: nat, until: Time) {
    id in s.waiting && s.clock < until ==>
      !s.row.active || (s.row.version == version && s.row.claim == Some(Claim(id, until)))
  }

  lemma GuardedStep(h: History, e: Event, id: ClaimId, version: nat, until: Time)
    requires Possible(h, e) && !e.Reconnect? && Sound(Last(h)) && id in Last(h).used
    requires Guarded(Last(h), id, version, until)
    ensures Guarded(After(h, e), id, version, until)
  {
  }

  lemma {:induction false} StaysGuarded(h: History, es: seq<Event>, n: nat, id: ClaimId, j: nat)
    requires IsRun(h, es) && ClaimedAt(h, es, n, id) && n < j < |h|
    requires forall k :: n < k < j ==> !es[k].Reconnect?
    ensures Guarded(h[j], id, h[n].row.version, es[n].now + CLAIM_LASTS)
    decreases j
  {
    RunStep(h, es, j - 1);
    if n + 1 < j {
      StaysGuarded(h, es, n, id, j - 1);
      RunsAreSound(h, es);
      RunStep(h, es, n);
      IdStaysUsed(h, es, n + 1, j - 1, id);
      GuardedStep(h[..j], es[j - 1], id, h[n].row.version, es[n].now + CLAIM_LASTS);
    }
  }

  /** Without a reconnection since its claim, a caller cannot revoke newer tokens before its claim is over. */
  lemma InTimeCallerRevokesOwn(h: History, es: seq<Event>, n: nat, e: Event)
    requires IsRun(h, es) && e.InvalidGrant? && Possible(h, e) && ClaimedAt(h, es, n, e.id)
    requires forall k :: n < k < |es| ==> !es[k].Reconnect?
    requires Last(h).clock < Last(h).waiting[e.id].claimedAt + CLAIM_LASTS
    ensures Last(h).row.active ==> Last(h).row.version == Last(h).waiting[e.id].version && HeldBy(Last(h).row, e.id)
  {
    WaitingSinceClaim(h, es, n, e.id, |h| - 1);
    StaysGuarded(h, es, n, e.id, |h| - 1);
  }

  /** Caller 10 is overdue and caller 11 has the claim. */
  lemma ClaimTakenOver() returns (h: History, es: seq<Event>)
    ensures IsRun(h, es) && |h| == 4 && |es| == 3
    ensures h[3].row == Credential(1, 0, None, Some(Claim(11, 30000)), true)
    ensures h[3].waiting == map[10 := Caller(1, 0), 11 := Caller(1, 15000)]
  {
    var e0, e1, e2 := TryClaim(0, 10, 0), Tick(15000), TryClaim(2, 11, 15000);
    var s0: History := [START];
    h, es := Snoc(s0, [], e0, After(s0, e0), START, Steps());
    assert Last(h) == Store(Credential(1, 0, None, Some(Claim(10, 15000)), true), 0, map[10 := Caller(1, 0)], {10});
    h, es := Snoc(h, es, e1, After(h, e1), START, Steps());
    h, es := Snoc(h, es, e2, After(h, e2), START, Steps());
  }

  /** revokeProviderCredential is not guarded by the claim: a caller that lost its claim to another, which
      then completed, still revokes the credential the other has just refreshed. */
  lemma OverdueCallerRevokesNewTokens() returns (h: History, es: seq<Event>)
    ensures IsRun(h, es) && |es| == 5 && es[4] == InvalidGrant(10)
    ensures Completes(h[3], es[3]) && !HeldBy(h[4].row, 10)
    ensures h[4].row.active && h[4].row.tokens == 7 && !h[5].row.active
  {
    h, es := ClaimTakenOver();
    var e3, e4 := Complete(11, 7, None), InvalidGrant(10);
    h, es := Snoc(h, es, e3, After(h, e3), START, Steps());
    assert Last(h).row == Credential(2, 7, None, None, true) && 10 in Last(h).waiting;
    h, es := Snoc(h, es, e4, After(h, e4), START, Steps());
  }

  // ------------------------------------------------------------------- the use case

  /** What the token endpoint answers, or that the call fails. */
  datatype Reply = Granted(tokens: Tokens, expiresAt: Option<Time>) | Refused | Failed

  datatype Result = Token(tokens: Tokens, refreshed: bool) | InProgress | NoRefreshToken | Changed | Rejected | Error

  /** A completion that was asked for: the state it met and the state it left. */
  datatype Completion = Completion(before: Store, after: Store)

  class CredentialStore {
    var s: Store
    ghost var completions: seq<Completion>
    /** No other call commits anything, and no time passes. */
    ghost const alone: bool

    constructor (ghost alone: bool)
      ensures s == START && completions == [] && this.alone == alone
    {
      s := START;
      completions := [];
      this.alone := alone;
    }

    /** An await: other callers, and time, may move on; they do not use this caller's id. */
    method Elapse(id: ClaimId)
      requires Sound(s)
      modifies this`s
      ensures Sound(s) && LostStaysLost(old(s), s) && old(s).clock <= s.clock
      ensures id in old(s).waiting ==> id in s.waiting && s.waiting[id] == old(s).waiting[id]
      ensures alone ==> s == old(s)
    {
    }

    /** refreshConnectionToken for a credential read earlier; hasRefreshToken is whether its payload has one, log the
        completion this caller asked for, if any. Which result is given is fixed by what was stored at the start
        and at the completion, and by the reply. No claim is left on an active credential, except in one case. */
    method RefreshConnectionToken(credential: Credential, hasRefreshToken: bool, reply: Reply, id: ClaimId)
      returns (r: Result, ghost log: seq<Completion>)
      requires Sound(s) && id !in s.used
      modifies this
      ensures Sound(s) && completions == old(completions) + log
      ensures r.Token? && !r.refreshed <==> GoodEnough(credential, old(s).clock)
      ensures GoodEnough(credential, old(s).clock) ==> r == Token(credential.tokens, false) && s == old(s)
      ensures r.InProgress? <==>
                !GoodEnough(credential, old(s).clock) && !Claimable(old(s).row, credential.version, old(s).clock)
      ensures r.InProgress? ==> s == old(s).(used := old(s).used + {id})
      ensures r.NoRefreshToken? <==>
                !GoodEnough(credential, old(s).clock) && Claimable(old(s).row, credential.version, old(s).clock)
                && !hasRefreshToken
      ensures r.Token? && r.refreshed <==> log != [] && Holds(log[0].before.row, credential.version, id)
      ensures r.Token? && r.refreshed ==>
                reply.Granted? && r.tokens == reply.tokens && s == log[0].after && s.clock == log[0].before.clock
                && s.row == Credential(credential.version + 1, reply.tokens, reply.expiresAt, None, true)
      ensures r.Changed? <==> log != [] && !Holds(log[0].before.row, credential.version, id)
      ensures r.Changed? ==> log[0].after == log[0].before
      ensures r.Rejected? || r.Error? || r.Changed? || (r.Token? && r.refreshed) <==>
                !GoodEnough(credential, old(s).clock) && Claimable(old(s).row, credential.version, old(s).clock)
                && hasRefreshToken
      ensures r.Rejected? ==> reply.Refused? && !s.row.active
      ensures r.Error? ==> reply.Failed?
      ensures log == [] || (|log| == 1 && reply.Granted?)
      ensures alone && log != [] ==> r == Token(reply.tokens, true)
      ensures r != NoRefreshToken && s.row.active ==> !HeldBy(s.row, id)
    {
      log := [];
      if GoodEnough(credential, s.clock) { return Token(credential.tokens, false), log; }
      var now, version := s.clock, credential.version;
      if !Claimable(s.row, version, now) {
        s := s.(used := s.used + {id});
        return InProgress, log;
      }
      s := s.(row := ClaimRefresh(s.row, version, id, now), waiting := s.waiting[id := Caller(version, now)],
              used := s.used + {id});
      if !hasRefreshToken { return NoRefreshToken, log; }
      Elapse(id);
      match reply
      case Granted(tokens, expiresAt) =>
        ghost var before := s;
        var completed := Complete(id, version, tokens, expiresAt);
        log := [Completion(before, s)];
        if completed { return Token(tokens, true), log; }
        Elapse(id);
        ReleaseOwn(id, version);
        return Changed, log;
      case Refused =>
        s := s.(row := RevokeCredential(s.row), waiting := s.waiting - {id});
        return Rejected, log;
      case Failed =>
        ReleaseOwn(id, version);
        return Error, log;
    }

    /** completeProviderCredentialRefresh. */
    method Complete(id: ClaimId, version: nat, tokens: Tokens, expiresAt: Option<Time>) returns (completed: bool)
      requires Sound(s) && id in s.waiting && s.waiting[id].version == version
      modifies this
      ensures completed <==> Holds(old(s).row, version, id)
      ensures s == if completed
                   then old(s).(row := CompleteRefresh(old(s).row, version, id, tokens, expiresAt),
                                waiting := old(s).waiting - {id})
                   else old(s)
      ensures completions == old(completions) + [Completion(old(s), s)]
      ensures Sound(s) && (completed && s.row.active ==> !HeldBy(s.row, id))
    {
      ghost var before := s;
      completed := Holds(s.row, version, id);
      if completed {
        s := s.(row := CompleteRefresh(s.row, version, id, tokens, expiresAt), waiting := s.waiting - {id});
      }
      completions := completions + [Completion(before, s)];
    }

    /** releaseProviderCredentialRefresh. */
    method ReleaseOwn(id: ClaimId, version: nat)
      requires Sound(s) && id in s.waiting && s.waiting[id].version == version
      modifies this`s
      ensures s == old(s).(row := ReleaseRefresh(old(s).row, version, id), waiting := old(s).waiting - {id})
      ensures Sound(s) && (s.row.active ==> !HeldBy(s.row, id))
    {
      s := s.(row := ReleaseRefresh(s.row, version, id), waiting := s.waiting - {id});
    }
  }
}
