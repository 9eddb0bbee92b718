/** Idempotent creation of an Agent by an application (createAgentWithInstallation in
    server/usecases/agent-identities.ts and its repository in server/adapters/repos/agent-identities.ts). */
module AgentCreation {
  import opened Options
  import opened Runs

  type AgentId = nat

  /** Application, acting user and idempotency key. */
  datatype Key = Key(application: nat, actor: nat, idempotency: nat)

  /** The digest of the canonical request, which stands for the request itself. */
  type Fingerprint = nat

  datatype Reservation = Reservation(fingerprint: Fingerprint, agent: AgentId)

  /** An identity and the user who owns it, with the key and request it was created for before reservations
      existed. */
  datatype Identity = Identity(owner: nat, deleted: bool, madeFor: Option<(Key, Fingerprint)>)

  /** An answer given to a caller. */
  datatype Reply = Reply(key: Key, fingerprint: Fingerprint, id: AgentId)

  /** erased are the users whose account was erased; replies records every successful answer. */
  datatype Store = Store(
    reservations: map<Key, Reservation>, identities: map<AgentId, Identity>, erased: set<nat>, replies: seq<Reply>)

  /** The reservation of a user who still exists is what was answered. */
  predicate Recorded(s: Store, r: Reply) {
    r.key.actor !in s.erased && r.key in s.reservations && s.reservations[r.key] == Reservation(r.fingerprint, r.id)
  }

  /** The foreign key, both unique indexes, and that callers were told what is reserved while their account
      exists; the identities of an erased user are deleted. */
  ghost predicate Sound(s: Store) {
    && (forall k :: k in s.reservations ==>
          s.reservations[k].agent in s.identities && s.identities[s.reservations[k].agent].owner == k.actor)
    && (forall k, l :: k in s.reservations && l in s.reservations && s.reservations[k].agent == s.reservations[l].agent ==> k == l)
    && (forall i :: i in s.identities ==>
          && (s.identities[i].owner in s.erased ==> s.identities[i].deleted)
          && (s.identities[i].madeFor.Some? ==> s.identities[i].madeFor.value.0.actor == s.identities[i].owner))
    && (forall r :: r in s.replies ==> r.key.actor in s.erased || Recorded(s, r))
  }

  /** Until its user is erased a reservation stays; identities and answers stay, deleted or erased for ever. */
  ghost predicate Extends(a: Store, b: Store) {
    && a.erased <= b.erased && a.replies <= b.replies
    && (forall k :: k in a.reservations && k.actor !in b.erased ==>
          k in b.reservations && b.reservations[k] == a.reservations[k])
    && (forall i :: i in a.identities ==>
          && i in b.identities && b.identities[i].owner == a.identities[i].owner
          && b.identities[i].madeFor == a.identities[i].madeFor
          && (a.identities[i].deleted ==> b.identities[i].deleted))
  }

  lemma ExtendsTransitive(a: Store, b: Store, c: Store)
    requires Extends(a, b) && Extends(b, c)
    ensures Extends(a, c)
  {
  }

  predicate Reservable(s: Store, k: Key, r: Reservation) {
    && k !in s.reservations && r.agent in s.identities
    && forall l :: l in s.reservations ==> s.reservations[l].agent != r.agent
  }

  /** The reservation's insert, if the constraints let it through. */
  function Reserve(s: Store, k: Key, r: Reservation): Store {
    if Reservable(s, k, r) then s.(reservations := s.reservations[k := r]) else s
  }

  /** An erased user gets no new identity (a trigger), so the whole transaction fails. */
  predicate Creatable(s: Store, k: Key, id: AgentId) {
    k !in s.reservations && id !in s.identities && k.actor !in s.erased
  }

  /** The identity and its reservation, in one transaction. */
  function Create(s: Store, k: Key, f: Fingerprint, id: AgentId): Store {
    if Creatable(s, k, id)
    then s.(reservations := s.reservations[k := Reservation(f, id)], identities := s.identities[id := Identity(k.actor, false, None)])
    else s
  }

  function Told(s: Store, r: Reply): Store {
    s.(replies := s.replies + [r])
  }

  // ---------------------------------------------------------------------------- runs

  type History = h: seq<Store> | h != [] witness [START]

  const START := Store(map[], map[], {}, [])

  /** The writes and answers of all calls, in the order in which they happen. `read` is the state in which
      a call found what it goes by: the key's reservation, or the identity of the older scheme. */
  datatype Event =
    | Answering(read: nat, key: Key, fingerprint: Fingerprint)
    | Creating(key: Key, fingerprint: Fingerprint, id: AgentId)
    | ReservingLegacy(read: nat, key: Key, fingerprint: Fingerprint, id: AgentId)
    | CreatingLegacy(key: Key, fingerprint: Fingerprint, id: AgentId)
    | Deleting(id: AgentId)
    | Erasing(user: nat)

  function Last(h: History): Store {
    h[|h| - 1]
  }

  predicate Possible(h: History, e: Event) {
    match e
    case Answering(read, key, _) =>
      read < |h| && key in h[read].reservations && h[read].reservations[key].agent in h[read].identities
    case Creating(_, _, _) => true
    case ReservingLegacy(read, k, f, id) =>
      read < |h| && id in h[read].identities && !h[read].identities[id].deleted && h[read].identities[id].madeFor == Some((k, f))
    case CreatingLegacy(k, _, id) => id !in Last(h).identities && k.actor !in Last(h).erased
    case Deleting(id) => id in Last(h).identities
    case Erasing(_) => true
  }

  /** The account's erasure: the user's reservations go, and the identities are deleted. */
  function Erase(s: Store, user: nat): Store {
    s.(reservations := map k | k in s.reservations && k.actor != user :: s.reservations[k],
       identities := map i | i in s.identities ::
         if s.identities[i].owner == user then s.identities[i].(deleted := true) else s.identities[i],
       erased := s.erased + {user})
  }

  /** requireMatchingApplicationAgentCreation and requireLiveApplicationAgent. */
  predicate Answerable(s: Store, k: Key, f: Fingerprint)
    requires k in s.reservations && s.reservations[k].agent in s.identities
  {
    s.reservations[k].fingerprint == f && !s.identities[s.reservations[k].agent].deleted
  }

  function After(h: History, e: Event): Store
    requires Possible(h, e)
  {
    var s := Last(h);
    match e
    case Answering(read, k, f) =>
      if Answerable(h[read], k, f) then Told(s, Reply(k, f, h[read].reservations[k].agent)) else s
    case Creating(k, f, id) =>
      if Creatable(s, k, id) then Told(Create(s, k, f, id), Reply(k, f, id)) else s
    case ReservingLegacy(_, k, f, id) => Reserve(s, k, Reservation(f, id))
    case CreatingLegacy(k, f, id) => s.(identities := s.identities[id := Identity(k.actor, false, Some((k, f)))])
    case Deleting(id) => s.(identities := s.identities[id := s.identities[id].(deleted := true)])
    case Erasing(user) => Erase(s, user)
  }

  ghost function Steps(): (seq<Store>, Event, Store) -> bool {
    (h: seq<Store>, e: Event, next: Store) => h != [] && Possible(h, e) && next == After(h, e)
  }

  ghost predicate IsRun(h: History, es: seq<Event>) {
    RunOf(h, es, START, Steps())
  }

  /** What was answered was reserved for a user of that time. */
  ghost predicate WasRecorded(h: seq<Store>, r: Reply) {
    exists i :: 0 <= i < |h| && Recorded(h[i], r)
  }

  ghost predicate SoundHistory(h: seq<Store>) {
    && (forall i :: 0 <= i < |h| ==> Sound(h[i]))
    && (forall i, j :: 0 <= i <= j < |h| ==> Extends(h[i], h[j]))
    && (forall j, r :: 0 <= j < |h| && r in h[j].replies ==> WasRecorded(h, r))
  }

  lemma TellSound(s: Store, r: Reply)
    requires Sound(s) && (r.key.actor in s.erased || Recorded(s, r))
    ensures Sound(Told(s, r)) && Extends(s, Told(s, r))
  {
  }

  lemma CreateSound(s: Store, k: Key, f: Fingerprint, id: AgentId)
    requires Sound(s)
    ensures Sound(Create(s, k, f, id)) && Extends(s, Create(s, k, f, id))
  {
  }

  lemma ReserveSound(s: Store, k: Key, r: Reservation)
    requires Sound(s) && r.agent in s.identities && s.identities[r.agent].owner == k.actor
    ensures Sound(Reserve(s, k, r)) && Extends(s, Reserve(s, k, r))
  {
  }

  lemma EraseSound(s: Store, user: nat)
    requires Sound(s)
    ensures Sound(Erase(s, user)) && Extends(s, Erase(s, user))
  {
  }

  lemma IdentitySound(s: Store, id: AgentId, i: Identity)
    requires Sound(s)
    requires id in s.identities ==> i == s.identities[id].(deleted := true)
    requires id !in s.identities ==> i.owner !in s.erased && (i.madeFor.Some? ==> i.madeFor.value.0.actor == i.owner)
    ensures var t := s.(identities := s.identities[id := i]); Sound(t) && Extends(s, t)
  {
  }

  lemma StepSound(h: History, e: Event)
    requires Possible(h, e) && SoundHistory(h)
    ensures Sound(After(h, e)) && Extends(Last(h), After(h, e))
  {
    var s := Last(h);
    match e
    case Answering(read, k, f) =>
      assert Sound(h[read]) && Extends(h[read], h[|h| - 1]);
      if Answerable(h[read], k, f) { TellSound(s, Reply(k, f, h[read].reservations[k].agent)); }
    case Creating(k, f, id) =>
      CreateSound(s, k, f, id);
      if Creatable(s, k, id) {
        var t := Create(s, k, f, id);
        TellSound(t, Reply(k, f, id));
        ExtendsTransitive(s, t, Told(t, Reply(k, f, id)));
      }
    case ReservingLegacy(read, k, f, id) =>
      assert Sound(h[read]) && Extends(h[read], h[|h| - 1]);
      ReserveSound(s, k, Reservation(f, id));
    case CreatingLegacy(k, f, id) => IdentitySound(s, id, Identity(k.actor, false, Some((k, f))));
    case Deleting(id) => IdentitySound(s, id, s.identities[id].(deleted := true));
    case Erasing(user) => EraseSound(s, user);
  }

  lemma NewReplyRecorded(h: History, e: Event, r: Reply)
    requires Possible(h, e) && SoundHistory(h) && r in After(h, e).replies
    ensures WasRecorded(h + [After(h, e)], r)
  {
    var g := h + [After(h, e)];
    if r in Last(h).replies {
      assert WasRecorded(h, r);
      var i :| 0 <= i < |h| && Recorded(h[i], r);
      assert Recorded(g[i], r);
    } else if e.Answering? {
      assert Sound(h[e.read]) && Recorded(h[e.read], r);
      assert Recorded(g[e.read], r);
    } else {
      assert Recorded(g[|h|], r);
    }
  }

  lemma SoundStep(h: History, e: Event, next: Store)
    requires SoundHistory(h) && Steps()(h, e, next)
    ensures SoundHistory(h + [next])
  {
    StepSound(h, e);
    var g := h + [next];
    forall i, j | 0 <= i <= j < |g| ensures Extends(g[i], g[j]) {
      if j == |h| && i < |h| {
        assert Extends(h[i], h[|h| - 1]);
        ExtendsTransitive(h[i], Last(h), next);
      }
    }
    forall j, r | 0 <= j < |g| && r in g[j].replies ensures WasRecorded(g, r) {
      assert Extends(g[j], g[|h|]) && r in next.replies;
      NewReplyRecorded(h, e, r);
    }
  }

  ghost function AlwaysSound(): (seq<Store>, seq<Event>) -> bool {
    (h: seq<Store>, es: seq<Event>) => h != [] && SoundHistory(h)
  }

  lemma RunsAreSound(h: History, es: seq<Event>)
    requires IsRun(h, es)
    ensures SoundHistory(h)
  {
    forall g, e, next {:trigger Steps()(g, e, next)} | g != [] && SoundHistory(g) && Steps()(g, e, next)
      ensures SoundHistory(g + [next])
    {
      SoundStep(g, e, next);
    }
    Induction(h, es, START, Steps(), AlwaysSound());
  }

  lemma RecordsAgree(h: History, i: nat, j: nat, a: Reply, b: Reply)
    requires SoundHistory(h) && i <= j < |h| && Recorded(h[i], a) && Recorded(h[j], b)
    ensures a.id == b.id <==> a.key == b.key
    ensures a.key == b.key ==> a.fingerprint == b.fingerprint
  {
    assert Sound(h[i]) && Sound(h[j]) && Extends(h[i], h[j]);
    if a.id == b.id {
      assert h[j].identities[b.id].owner == b.key.actor && h[i].identities[a.id].owner == a.key.actor;
      assert a.key in h[j].reservations;
    }
  }

  /** In every run, also across the erasure of accounts, two answers name one Agent exactly when they are for
      one key, and then they answer one request: whenever each was given, from whatever was read, and by
      whichever path. */
  lemma RepliesAgreeIff(h: History, es: seq<Event>, i: nat, j: nat, a: Reply, b: Reply)
    requires IsRun(h, es) && i < |h| && j < |h| && a in h[i].replies && b in h[j].replies
    ensures a.id == b.id <==> a.key == b.key
    ensures a.key == b.key ==> a.fingerprint == b.fingerprint
  {
    RunsAreSound(h, es);
    assert WasRecorded(h, a) && WasRecorded(h, b);
    var m :| 0 <= m < |h| && Recorded(h[m], a);
    var n :| 0 <= n < |h| && Recorded(h[n], b);
    if m <= n { RecordsAgree(h, m, n, a, b); } else { RecordsAgree(h, n, m, b, a); }
  }

  /** A reservation stays until its user's account is erased, and a key that cannot be answered, because it
      was used for another request or its Agent is deleted, can never be answered again, erasure or not. */
  lemma ReservationIsForEver(h: History, es: seq<Event>, i: nat, j: nat, k: Key, f: Fingerprint)
    requires IsRun(h, es) && i <= j < |h| && k in h[i].reservations
    ensures k.actor !in h[j].erased ==> k in h[j].reservations && h[j].reservations[k] == h[i].reservations[k]
    ensures h[i].reservations[k].agent in h[i].identities
    ensures k in h[j].reservations ==> h[j].reservations[k].agent in h[j].identities
    ensures !Answerable(h[i], k, f) && k in h[j].reservations ==> !Answerable(h[j], k, f)
  {
    RunsAreSound(h, es);
    assert Sound(h[i]) && Sound(h[j]) && Extends(h[i], h[j]);
  }

  datatype Result = Agent(id: AgentId, replayed: bool) | Conflict | Failure

  /** An identity of the older scheme stands in the way: deleted, or made for another request. */
  predicate LegacyConflict(s: Store, legacyId: AgentId, k: Key, f: Fingerprint) {
    && legacyId in s.identities
    && (s.identities[legacyId].deleted || s.identities[legacyId].madeFor != Some((k, f)))
  }

  /** The key's reservation cannot be answered for this request. */
  predicate KeyConflict(s: Store, k: Key, f: Fingerprint) {
    && k in s.reservations && s.reservations[k].agent in s.identities && !Answerable(s, k, f)
  }

  class Agents {
    var s: Store
    /** No other call commits anything. */
    ghost const alone: bool

    constructor (ghost alone: bool)
      ensures Sound(s) && s == START && this.alone == alone
    {
      s := START;
      this.alone := alone;
    }

    /** An await: other calls run. */
    method Elapse()
      requires Sound(s)
      modifies this
      ensures Sound(s) && Extends(old(s), s)
      ensures alone ==> s == old(s)
    {
    }

    /** reserveApplicationCreation: an insert that loses a race returns the winner's reservation. `fails` is
        an insert that fails for a reason of its own. */
    method ReserveApplicationCreation(k: Key, r: Reservation, fails: bool) returns (kept: Option<Reservation>)
      requires Sound(s) && r.agent in s.identities && s.identities[r.agent].owner == k.actor
      modifies this
      ensures Sound(s) && Extends(old(s), s)
      ensures kept.Some? ==> k in s.reservations && s.reservations[k] == kept.value
      ensures kept.None? ==> k !in s.reservations
      ensures k in old(s).reservations ==> kept == Some(old(s).reservations[k]) && s == old(s)
      ensures alone && k !in old(s).reservations ==>
                if !fails && Reservable(old(s), k, r) then kept == Some(r) && s == Reserve(old(s), k, r)
                else kept.None? && s == old(s)
    {
      if k in s.reservations { return Some(s.reservations[k]); }
      Elapse();
      if !fails && Reservable(s, k, r) {
        ReserveSound(s, k, r);
        s := Reserve(s, k, r);
        return Some(r);
      }
      if k in s.reservations { return Some(s.reservations[k]); }
      return None;
    }

    /** createAgentWithInstallation of the repository: identity and reservation in one transaction. */
    method CreateWithReservation(k: Key, f: Fingerprint, id: AgentId, fails: bool) returns (kept: Option<Reservation>, created: bool)
      requires Sound(s)
      modifies this
      ensures Sound(s) && Extends(old(s), s)
      ensures kept.Some? ==> k in s.reservations && s.reservations[k] == kept.value
      ensures created ==> kept == Some(Reservation(f, id)) && k !in old(s).reservations && id !in old(s).identities
                          && id in s.identities && s.identities[id] == Identity(k.actor, false, None)
      ensures kept.None? ==> k !in s.reservations
      ensures alone && k !in old(s).reservations ==>
                if !fails && Creatable(old(s), k, id) then created && s == Create(old(s), k, f, id)
                else kept.None? && s == old(s)
    {
      if k in s.reservations { return Some(s.reservations[k]), false; }
      Elapse();
      if !fails && Creatable(s, k, id) {
        CreateSound(s, k, f, id);
        ExtendsTransitive(old(s), s, Create(s, k, f, id));
        s := Create(s, k, f, id);
        return Some(Reservation(f, id)), true;
      }
      if k in s.reservations { return Some(s.reservations[k]), false; }
      return None, false;
    }

    /** The two requirements, and the answer. */
    method Answer(k: Key, f: Fingerprint, kept: Reservation, replayed: bool) returns (r: Result)
      requires Sound(s) && k in s.reservations && s.reservations[k] == kept
      modifies this
      ensures Sound(s) && Extends(old(s), s)
      ensures if Answerable(old(s), k, f) then r == Agent(kept.agent, replayed) && s == Told(old(s), Reply(k, f, kept.agent))
              else r == Conflict && s == old(s)
    {
      if kept.fingerprint != f { return Conflict; }
      if s.identities[kept.agent].deleted { return Conflict; }
      s := Told(s, Reply(k, f, kept.agent));
      return Agent(kept.agent, replayed);
    }

    /** replayLegacyApplicationAgent: an identity whose id is derived from the key, if it was made for this
        very request, gets the reservation. None: there is no such identity. */
    method ReplayLegacy(k: Key, f: Fingerprint, legacyId: AgentId, fails: bool) returns (r: Option<Result>)
      requires Sound(s)
      modifies this
      ensures Sound(s) && Extends(old(s), s)
      ensures r.None? <==> legacyId !in old(s).identities
      ensures r.None? ==> s == old(s)
      ensures r.Some? && r.value.Agent? ==> r.value.replayed && Replied(k, f, r.value.id)
      ensures r.Some? && r.value.Failure? ==> k !in s.reservations
      ensures r.Some? && r.value.Conflict? ==> LegacyConflict(s, legacyId, k, f) || KeyConflict(s, k, f)
      ensures LegacyConflict(old(s), legacyId, k, f) ==> r == Some(Conflict) && s == old(s)
      ensures alone && r.Some? && k !in old(s).reservations && !LegacyConflict(old(s), legacyId, k, f) ==>
                if !fails && Reservable(old(s), k, Reservation(f, legacyId))
                then r == Some(Agent(legacyId, true))
                     && s == Told(Reserve(old(s), k, Reservation(f, legacyId)), Reply(k, f, legacyId))
                else r == Some(Failure) && s == old(s)
    {
      if legacyId !in s.identities { return None; }
      var identity := s.identities[legacyId];
      if identity.deleted || identity.madeFor != Some((k, f)) { return Some(Conflict); }
      var kept := ReserveApplicationCreation(k, Reservation(f, legacyId), fails);
      if kept.None? { return Some(Failure); }
      var answer := Answer(k, f, kept.value, true);
      return Some(answer);
    }

    /** The key is reserved for this request and a live Agent, and a caller was told so. */
    predicate Replied(k: Key, f: Fingerprint, id: AgentId)
      reads this
    {
      && k in s.reservations && s.reservations[k] == Reservation(f, id)
      && id in s.identities && !s.identities[id].deleted && Reply(k, f, id) in s.replies
    }

    /** createAgentWithInstallation. A key that is reserved is replayed, for the same request while its Agent
        lives, and only then. Else what is stored in the end decides, whatever other calls did at the awaits; and
        with no other call the result and the state are fixed. `available` is whether the installation and the
        username are free. */
    method CreateAgentWithInstallation(
        k: Key, f: Fingerprint, newId: AgentId, legacyId: AgentId, available: bool, fails: bool) returns (r: Result)
      requires Sound(s)
      modifies this
      ensures Sound(s) && Extends(old(s), s)
      ensures k in old(s).reservations ==>
                if Answerable(old(s), k, f)
                then r == Agent(old(s).reservations[k].agent, true)
                     && s == Told(old(s), Reply(k, f, old(s).reservations[k].agent))
                else r == Conflict && s == old(s)
      ensures r.Agent? ==> Replied(k, f, r.id)
      ensures r.Agent? && !r.replayed ==>
                r.id == newId && k !in old(s).reservations && newId !in old(s).identities
                && s.identities[newId] == Identity(k.actor, false, None)
      ensures r.Conflict? ==> LegacyConflict(s, legacyId, k, f) || KeyConflict(s, k, f)
      ensures r.Failure? ==> k !in s.reservations || !available
      ensures alone && k !in old(s).reservations ==>
                if LegacyConflict(old(s), legacyId, k, f) then r == Conflict && s == old(s)
                else if legacyId in old(s).identities && !fails && Reservable(old(s), k, Reservation(f, legacyId))
                then r == Agent(legacyId, true)
                     && s == Told(Reserve(old(s), k, Reservation(f, legacyId)), Reply(k, f, legacyId))
                else if legacyId !in old(s).identities && available && !fails && Creatable(old(s), k, newId)
                then r == Agent(newId, false) && s == Told(Create(old(s), k, f, newId), Reply(k, f, newId))
                else r == Failure && s == old(s)
    {
      if k in s.reservations {
        r := Answer(k, f, s.reservations[k], true);
        return;
      }
      Elapse();
      ghost var first := s;
      var legacy := ReplayLegacy(k, f, legacyId, fails);
      ExtendsTransitive(old(s), first, s);
      if legacy.Some? { return legacy.value; }
      ghost var second := s;
      Elapse();
      ExtendsTransitive(old(s), second, s);
      ghost var third := s;
      var kept, created := None, false;
      if available { kept, created := CreateWithReservation(k, f, newId, fails); }
      ExtendsTransitive(old(s), third, s);
      if kept.Some? {
        r := Answer(k, f, kept.value, !created);
        return;
      }
      ghost var fourth := s;
      var recovered := ReplayLegacy(k, f, legacyId, fails);
      ExtendsTransitive(old(s), fourth, s);
      return if recovered.Some? then recovered.value else Failure;
    }
  }
}
