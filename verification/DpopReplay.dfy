/** The replay map of the example resource server (consumeDpopJti and the freshness test before it in
    examples/native-resource-server/server.ts; section 11.1 of RFC 9449). */
module DpopReplay {
  import opened JsText
  import opened Runs

  /** Date.now(). */
  type Millis = int

  const WINDOW := 300.0

  function Seconds(t: Millis): int {
    t / 1000
  }

  /** `iat` is a number, not necessarily whole. */
  datatype Proof = Proof(jkt: Text, jti: Text, iat: real)

  function ReplayKey(p: Proof): Text {
    p.jkt + [COLON] + p.jti
  }

  /** |now - iat| <= 300, to the millisecond. */
  predicate Recent(p: Proof, now: Millis) {
    -WINDOW <= now as real / 1000.0 - p.iat <= WINDOW
  }

  function Evicted(used: map<Text, real>, second: int): map<Text, real> {
    map k | k in used && used[k] > second as real :: used[k]
  }

  function Consumed(used: map<Text, real>, p: Proof, now: Millis): map<Text, real> {
    var kept := Evicted(used, Seconds(now));
    if ReplayKey(p) in kept then kept else kept[ReplayKey(p) := p.iat + WINDOW]
  }

  predicate Fresh(used: map<Text, real>, p: Proof, now: Millis) {
    ReplayKey(p) !in Evicted(used, Seconds(now))
  }

  /** The module's map of used proofs. */
  class UsedProofs {
    var used: map<Text, real>

    constructor ()
      ensures used == map[]
    {
      used := map[];
    }

    method ConsumeDpopJti(p: Proof, now: Millis) returns (accepted: bool)
      modifies this
      ensures accepted <==> Fresh(old(used), p, now)
      ensures used == Consumed(old(used), p, now)
    {
      var second, left := Seconds(now), used.Keys;
      while left != {}
        invariant left <= used.Keys <= old(used).Keys
        invariant forall k :: k in used ==> used[k] == old(used)[k]
        invariant forall k :: k in old(used) && k !in left ==> (k in used <==> old(used)[k] > second as real)
        invariant forall k :: k in left ==> k in used
        decreases left
      {
        var candidate :| candidate in left;
        if used[candidate] <= second as real { used := used - {candidate}; }
        left := left - {candidate};
      }
      assert used == Evicted(old(used), second);
      var replayKey := ReplayKey(p);
      if replayKey in used { return false; }
      used := used[replayKey := p.iat + WINDOW];
      return true;
    }
  }

  // ---------------------------------------------------------------------------- runs

  /** A proof whose freshness was checked at one time and that is consumed at a later one. */
  datatype Event = Verify(p: Proof, checked: Millis, consumed: Millis)

  datatype State = State(used: map<Text, real>, clock: Millis)

  const START := State(map[], 0)

  predicate Possible(s: State, e: Event) {
    e.checked <= e.consumed && s.clock <= e.consumed && Recent(e.p, e.checked)
  }

  function After(s: State, e: Event): State {
    State(Consumed(s.used, e.p, e.consumed), e.consumed)
  }

  ghost function Steps(): (seq<State>, Event, State) -> bool {
    (h: seq<State>, e: Event, next: State) => h != [] && Possible(h[|h| - 1], e) && next == After(h[|h| - 1], e)
  }

  ghost predicate IsRun(h: seq<State>, es: seq<Event>) {
    RunOf(h, es, START, Steps())
  }

  predicate Accepts(s: State, e: Event) {
    Fresh(s.used, e.p, e.consumed)
  }

  /** An accepted proof is in the map until its last second begins. */
  predicate Remembered(s: State, p: Proof) {
    (ReplayKey(p) in s.used && s.used[ReplayKey(p)] == p.iat + WINDOW) || p.iat + WINDOW <= Seconds(s.clock) as real
  }

  ghost function AllRemembered(): (seq<State>, seq<Event>) -> bool {
    (h: seq<State>, es: seq<Event>) =>
      |h| == |es| + 1 && forall n :: 0 <= n < |es| && Accepts(h[n], es[n]) ==> Remembered(h[|es|], es[n].p)
  }

  lemma SecondsMonotone(a: Millis, b: Millis)
    requires a <= b
    ensures Seconds(a) <= Seconds(b)
  {
  }

  lemma StaysRemembered(s: State, e: Event, p: Proof)
    requires Possible(s, e) && Remembered(s, p)
    ensures Remembered(After(s, e), p)
  {
    SecondsMonotone(s.clock, e.consumed);
  }

  lemma RememberedStep(h: seq<State>, es: seq<Event>, e: Event, next: State)
    requires AllRemembered()(h, es) && Steps()(h, e, next)
    ensures AllRemembered()(h + [next], es + [e])
  {
    var g, fs := h + [next], es + [e];
    forall n | 0 <= n < |fs| && Accepts(g[n], fs[n]) ensures Remembered(g[|fs|], fs[n].p) {
      if n < |es| { StaysRemembered(h[|es|], e, es[n].p); }
    }
  }

  lemma RunsRemember(h: seq<State>, es: seq<Event>)
    requires IsRun(h, es)
    ensures AllRemembered()(h, es)
  {
    forall g, fs, e, next {:trigger Steps()(g, e, next), AllRemembered()(g, fs)} |
      AllRemembered()(g, fs) && Steps()(g, e, next)
      ensures AllRemembered()(g + [next], fs + [e])
    {
      RememberedStep(g, fs, e, next);
    }
    Induction(h, es, START, Steps(), AllRemembered());
  }

  /** The key of the map is the pair: a thumbprint has no colon. */
  lemma ReplayKeyInjective(p: Proof, q: Proof)
    requires COLON !in p.jkt && COLON !in q.jkt && ReplayKey(p) == ReplayKey(q)
    ensures p.jkt == q.jkt && p.jti == q.jti
  {
    var a, b := ReplayKey(p), ReplayKey(q);
    assert a[|p.jkt|] == COLON && b[|q.jkt|] == COLON;
    assert forall i :: 0 <= i < |p.jkt| ==> a[i] == p.jkt[i] && a[i] != COLON;
    assert forall i :: 0 <= i < |q.jkt| ==> b[i] == q.jkt[i] && b[i] != COLON;
    assert |p.jkt| == |q.jkt|;
    assert p.jkt == a[..|p.jkt|] && q.jkt == b[..|q.jkt|];
    assert p.jti == a[|p.jkt| + 1..] && q.jti == b[|q.jkt| + 1..];
  }

  lemma AcceptedKeyIsOver(h: seq<State>, es: seq<Event>, n: nat, m: nat)
    requires IsRun(h, es) && n < m < |es| && Accepts(h[n], es[n]) && Accepts(h[m], es[m])
    requires ReplayKey(es[n].p) == ReplayKey(es[m].p)
    ensures |h| == |es| + 1 && h[m + 1].clock == es[m].consumed
    ensures es[n].p.iat + WINDOW <= Seconds(es[m].consumed) as real
  {
    PrefixIsRun(h, es, m);
    RunsRemember(h[..m + 1], es[..m]);
    assert Accepts(h[..m + 1][n], es[..m][n]) && Remembered(h[m], es[n].p);
    StepAt(h, es, START, Steps(), m);
    var g := h[..m + 1];
    assert Steps()(g, es[m], h[m + 1]) && g[|g| - 1] == h[m];
    SecondsMonotone(h[m].clock, es[m].consumed);
  }

  /** In every run, a key and identifier accepted once are not accepted again before the second iat + 300. */
  lemma NoReplayBeforeExpiry(h: seq<State>, es: seq<Event>, n: nat, m: nat)
    requires IsRun(h, es) && n < m < |es| && Accepts(h[n], es[n]) && Accepts(h[m], es[m])
    requires es[n].p.jkt == es[m].p.jkt && es[n].p.jti == es[m].p.jti
    ensures es[n].p.iat + WINDOW <= Seconds(es[m].consumed) as real
  {
    AcceptedKeyIsOver(h, es, n, m);
  }

  lemma {:induction false} PrefixIsRun(h: seq<State>, es: seq<Event>, m: nat)
    requires IsRun(h, es) && m <= |es|
    ensures |h| == |es| + 1 && IsRun(h[..m + 1], es[..m])
    decreases |es|
  {
    if m == |es| {
      assert h[..m + 1] == h && es[..m] == es;
    } else {
      PrefixIsRun(h[..|es|], es[..|es| - 1], m);
      assert h[..|es|][..m + 1] == h[..m + 1] && es[..|es| - 1][..m] == es[..m];
    }
  }

  predicate InLastInstant(e: Event) {
    && -WINDOW <= e.checked as real / 1000.0 - e.p.iat
    && e.checked as real / 1000.0 <= e.p.iat + WINDOW <= Seconds(e.consumed) as real
  }

  /** What the map holds was accepted in this run. */
  ghost function AllAccepted(): (seq<State>, seq<Event>) -> bool {
    (h: seq<State>, es: seq<Event>) =>
      |h| == |es| + 1 && forall k {:trigger h[|es|].used[k]} :: k in h[|es|].used ==> AcceptedAs(h, es, k, h[|es|].used[k])
  }

  ghost predicate AcceptedAs(h: seq<State>, es: seq<Event>, key: Text, until: real)
    requires |h| == |es| + 1
  {
    exists m :: 0 <= m < |es| && Accepts(h[m], es[m]) && ReplayKey(es[m].p) == key && es[m].p.iat + WINDOW == until
  }

  /** An entry of the map after a verification was there before it, or is the one just made. */
  lemma EntryOrigin(s: State, e: Event, k: Text)
    requires k in After(s, e).used
    ensures (k in s.used && After(s, e).used[k] == s.used[k])
         || (Accepts(s, e) && ReplayKey(e.p) == k && After(s, e).used[k] == e.p.iat + WINDOW)
  {
  }

  lemma AcceptedGrows(h: seq<State>, es: seq<Event>, e: Event, next: State, k: Text, until: real)
    requires |h| == |es| + 1
    requires AcceptedAs(h, es, k, until) || (Accepts(h[|es|], e) && ReplayKey(e.p) == k && e.p.iat + WINDOW == until)
    ensures AcceptedAs(h + [next], es + [e], k, until)
  {
    var g, fs := h + [next], es + [e];
    if AcceptedAs(h, es, k, until) {
      var m :| 0 <= m < |es| && Accepts(h[m], es[m]) && ReplayKey(es[m].p) == k && es[m].p.iat + WINDOW == until;
      assert g[m] == h[m] && fs[m] == es[m];
    } else {
      assert g[|es|] == h[|es|] && fs[|es|] == e;
    }
  }

  lemma AcceptedStep(h: seq<State>, es: seq<Event>, e: Event, next: State)
    requires AllAccepted()(h, es) && Steps()(h, e, next)
    ensures AllAccepted()(h + [next], es + [e])
  {
    var s := h[|es|];
    forall k | k in next.used ensures AcceptedAs(h + [next], es + [e], k, next.used[k]) {
      EntryOrigin(s, e, k);
      if k in s.used && next.used[k] == s.used[k] { assert AcceptedAs(h, es, k, s.used[k]); }
      AcceptedGrows(h, es, e, next, k, next.used[k]);
    }
  }

  lemma EntriesWereAccepted(h: seq<State>, es: seq<Event>)
    requires IsRun(h, es)
    ensures AllAccepted()(h, es)
  {
    forall g, fs, e, next {:trigger Steps()(g, e, next), AllAccepted()(g, fs)} |
      AllAccepted()(g, fs) && Steps()(g, e, next)
      ensures AllAccepted()(g + [next], fs + [e])
    {
      AcceptedStep(g, fs, e, next);
    }
    Induction(h, es, START, Steps(), AllAccepted());
  }

  /** Position n is the last at which this key and identifier were accepted. */
  ghost predicate LastAccepted(h: seq<State>, es: seq<Event>, n: nat)
    requires |h| == |es| + 1
  {
    && n < |es| && Accepts(h[n], es[n])
    && forall m :: n < m < |es| && Accepts(h[m], es[m]) ==> ReplayKey(es[m].p) != ReplayKey(es[n].p)
  }

  lemma EarlierIsOver(h: seq<State>, es: seq<Event>, m: nat, n: nat)
    requires IsRun(h, es) && |h| == |es| + 1 && m < n < |es| && Accepts(h[m], es[m]) && Accepts(h[n], es[n])
    requires ReplayKey(es[m].p) == ReplayKey(es[n].p)
    ensures es[m].p.iat + WINDOW <= Seconds(h[|es|].clock) as real
  {
    AcceptedKeyIsOver(h, es, m, n);
    ClockGrows(h, es, n + 1, |es|);
    SecondsMonotone(h[n + 1].clock, h[|es|].clock);
  }

  lemma {:induction false} ClockGrows(h: seq<State>, es: seq<Event>, i: nat, j: nat)
    requires IsRun(h, es) && i <= j <= |es| == |h| - 1
    ensures h[i].clock <= h[j].clock
    decreases j
  {
    if i < j {
      ClockGrows(h, es, i, j - 1);
      StepAt(h, es, START, Steps(), j - 1);
      assert Steps()(h[..j], es[j - 1], h[j]) && h[..j][j - 1] == h[j - 1];
    }
  }

  /** In every run, a proof whose key and identifier were accepted before is let through by the map exactly
      when the last second of the proof accepted last has begun. */
  lemma AcceptedAgainIff(h: seq<State>, es: seq<Event>, n: nat, e: Event)
    requires IsRun(h, es) && |h| == |es| + 1 && LastAccepted(h, es, n)
    requires ReplayKey(e.p) == ReplayKey(es[n].p) && h[|es|].clock <= e.consumed
    ensures Accepts(h[|es|], e) <==> es[n].p.iat + WINDOW <= Seconds(e.consumed) as real
  {
    RunsRemember(h, es);
    EntriesWereAccepted(h, es);
    var s, key := h[|es|], ReplayKey(e.p);
    assert Remembered(s, es[n].p);
    SecondsMonotone(s.clock, e.consumed);
    if key in s.used && s.used[key] != es[n].p.iat + WINDOW {
      assert AcceptedAs(h, es, key, s.used[key]);
      var m :| 0 <= m < |es| && Accepts(h[m], es[m]) && ReplayKey(es[m].p) == key && es[m].p.iat + WINDOW == s.used[key];
      assert m < n;
      EarlierIsOver(h, es, m, n);
    }
  }

  /** In every run, the proof that was accepted last for its key and identifier passes both tests again exactly
      when its last second has begun at the eviction but had not passed at the freshness test. */
  lemma ReplayIff(h: seq<State>, es: seq<Event>, n: nat, e: Event)
    requires IsRun(h, es) && |h| == |es| + 1 && LastAccepted(h, es, n)
    requires e.p == es[n].p && e.checked <= e.consumed && h[|es|].clock <= e.consumed
    ensures (Recent(e.p, e.checked) && Accepts(h[|es|], e)) <==> InLastInstant(e)
  {
    AcceptedAgainIff(h, es, n, e);
  }

  /** With no time between the two tests, that is one millisecond, and only for whole seconds. */
  lemma ReplayAtOneInstant(e: Event)
    requires e.checked == e.consumed
    ensures InLastInstant(e) <==> e.p.iat + WINDOW == e.checked as real / 1000.0 && e.checked % 1000 == 0
  {
    var t := e.checked;
    assert t == 1000 * Seconds(t) + t % 1000;
    assert t as real == 1000.0 * (Seconds(t) as real) + (t % 1000) as real;
    assert Seconds(t) as real <= t as real / 1000.0;
  }

  const PROOF := Proof([97], [98], 0.0)

  lemma FirstProof()
    ensures Possible(START, Verify(PROOF, 0, 0)) && Accepts(START, Verify(PROOF, 0, 0))
    ensures var s := After(START, Verify(PROOF, 0, 0));
      s == State(map[ReplayKey(PROOF) := 300.0], 0)
      && Possible(s, Verify(PROOF, 300000, 300000)) && Accepts(s, Verify(PROOF, 300000, 300000))
  {
    assert 0 as real / 1000.0 == 0.0 && 300000 as real / 1000.0 == 300.0;
  }

  /** A run in which one proof is accepted at its time and accepted again 300 seconds later. */
  lemma ProofAcceptedTwice() returns (h: seq<State>, es: seq<Event>)
    ensures IsRun(h, es) && es == [Verify(PROOF, 0, 0), Verify(PROOF, 300000, 300000)]
    ensures Accepts(h[0], es[0]) && Accepts(h[1], es[1])
  {
    var e0, e1 := Verify(PROOF, 0, 0), Verify(PROOF, 300000, 300000);
    var s0: seq<State> := [START];
    FirstProof();
    assert Steps()(s0, e0, After(START, e0));
    h, es := Snoc(s0, [], e0, After(START, e0), START, Steps());
    assert Steps()(h, e1, After(h[1], e1));
    h, es := Snoc(h, es, e1, After(h[1], e1), START, Steps());
  }
}
