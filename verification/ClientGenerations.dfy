/** The generations of a dynamically registered OAuth client (ensureDynamicConnectorScopes in
    server/usecases/connectors.ts) and how a generation is resolved to its client
    (resolveExternalAuthorization in server/usecases/external-resources.ts). */
module ClientGenerations {
  import opened Options
  import opened Runs

  type ClientId = nat
  type Scope = nat

  /** A secret, with the client it was issued to. */
  datatype Secret = Secret(owner: ClientId, number: nat)

  datatype Retired = Retired(generation: nat, client: ClientId, secret: Secret)

  datatype Connector = Connector(
    generation: nat, client: ClientId, secret: Secret, scopes: Option<set<Scope>>, retired: seq<Retired>)

  // --------------------------------------------------------------------- resolution

  function FindRetired(retired: seq<Retired>, generation: nat): Option<Retired> {
    if retired == [] then None
    else if retired[0].generation == generation then Some(retired[0])
    else FindRetired(retired[1..], generation)
  }

  function Resolve(c: Connector, generation: nat): Option<(ClientId, Secret)> {
    match FindRetired(c.retired, generation)
    case Some(r) => Some((r.client, r.secret))
    case None => if generation == c.generation then Some((c.client, c.secret)) else None
  }

  // ------------------------------------------------------------------------- writes

  predicate Covers(scopes: Option<set<Scope>>, required: set<Scope>) {
    required == {} || (scopes.Some? && required <= scopes.value)
  }

  /** registrationResponse: None when the answer omits a requested scope. */
  function RegisteredScopes(returned: Option<set<Scope>>, requested: set<Scope>): Option<set<Scope>> {
    if returned.Some? && !(requested <= returned.value) then None
    else Some(if returned.Some? then returned.value else requested)
  }

  /** The secret an update answer leaves the client with: a new one, or the one that was read. */
  function UpdatedSecret(read: Connector, newSecret: Option<nat>): Secret {
    if newSecret.Some? then Secret(read.client, newSecret.value) else read.secret
  }

  /** update: the row is found by its id alone. */
  function UpdateInPlace(c: Connector, secret: Secret, scopes: set<Scope>): Connector {
    c.(secret := secret, scopes := Some(scopes))
  }

  /** rotateResourceClientGeneration, with the patch computed from the connector that was read. */
  function Rotate(c: Connector, read: Connector, client: ClientId, secret: Secret, scopes: set<Scope>): Connector {
    if c.generation != read.generation then c
    else Connector(read.generation + 1, client, secret, Some(scopes),
                   read.retired + [Retired(read.generation, read.client, read.secret)])
  }

  // --------------------------------------------------------------------------- runs

  /** issued records which client was registered as which generation since the last reset. */
  datatype Store = Store(row: Connector, issued: map<nat, ClientId>, epoch: nat)

  datatype Event =
    | UpdateClient(read: nat, newSecret: Option<nat>, scopes: set<Scope>)
    | Replace(read: nat, client: ClientId, number: nat, scopes: set<Scope>)
    | Reset(client: ClientId, number: nat, initial: Option<set<Scope>>)

  type History = h: seq<Store> | h != [] witness [START]

  function FirstGeneration(client: ClientId, number: nat, scopes: Option<set<Scope>>): Connector {
    Connector(1, client, Secret(client, number), scopes, [])
  }

  const START := Store(FirstGeneration(0, 0, None), map[1 := 0], 0)

  function Last(h: History): Store {
    h[|h| - 1]
  }

  predicate Possible(h: History, e: Event) {
    match e
    case UpdateClient(read, _, _) => read < |h|
    case Replace(read, _, _, _) => read < |h|
    case Reset(_, _, _) => true
  }

  function After(h: History, e: Event): Store
    requires Possible(h, e)
  {
    var s := Last(h);
    match e
    case UpdateClient(read, newSecret, scopes) =>
      s.(row := UpdateInPlace(s.row, UpdatedSecret(h[read].row, newSecret), scopes))
    case Replace(read, client, number, scopes) =>
      var row := Rotate(s.row, h[read].row, client, Secret(client, number), scopes);
      Store(row, if s.row.generation == h[read].row.generation then s.issued[row.generation := client] else s.issued, s.epoch)
    case Reset(client, number, scopes) =>
      Store(FirstGeneration(client, number, scopes), map[1 := client], s.epoch + 1)
  }

  /** No replacement is registered across a reset. */
  predicate SameEpoch(h: History, e: Event)
    requires Possible(h, e)
  {
    e.Replace? ==> h[e.read].epoch == Last(h).epoch
  }

  ghost function Steps(): (seq<Store>, Event, Store) -> bool {
    (h: seq<Store>, e: Event, next: Store) => h != [] && Possible(h, e) && next == After(h, e) && SameEpoch(h, e)
  }

  ghost predicate IsRun(h: History, es: seq<Event>) {
    RunOf(h, es, START, Steps())
  }

  /** The retired list holds the generations before the current one, in order and once each, each with
      the client that was registered for it. */
  ghost predicate Sound(s: Store) {
    && s.row.generation == |s.row.retired| + 1
    && (forall g: nat :: g in s.issued <==> 1 <= g <= s.row.generation)
    && s.issued[s.row.generation] == s.row.client
    && (forall i :: 0 <= i < |s.row.retired| ==>
          s.row.retired[i].generation == i + 1 && s.row.retired[i].client == s.issued[i + 1])
  }

  /** Within an epoch clients are only added, and the retired list grows only with the generation. */
  predicate Extends(a: Store, b: Store) {
    && a.epoch <= b.epoch
    && (a.epoch == b.epoch ==>
          && a.row.generation <= b.row.generation
          && (forall g :: g in a.issued ==> g in b.issued && b.issued[g] == a.issued[g])
          && (a.row.generation == b.row.generation ==>
                b.row.retired == a.row.retired && b.row.client == a.row.client))
  }

  lemma StepSound(h: History, e: Event)
    requires Possible(h, e) && SameEpoch(h, e) && Sound(Last(h))
    requires e.Replace? ==> Sound(h[e.read]) && Extends(h[e.read], Last(h))
    ensures Sound(After(h, e)) && Extends(Last(h), After(h, e))
  {
  }

  ghost predicate SoundHistory(h: seq<Store>) {
    && (forall i :: 0 <= i < |h| ==> Sound(h[i]))
    && (forall i, j :: 0 <= i <= j < |h| ==> Extends(h[i], h[j]))
  }

  ghost function AlwaysSound(): (seq<Store>, seq<Event>) -> bool {
    (h: seq<Store>, es: seq<Event>) => h != [] && SoundHistory(h)
  }

  lemma ExtendsTransitive(a: Store, b: Store, c: Store)
    requires Extends(a, b) && Extends(b, c)
    ensures Extends(a, c)
  {
  }

  lemma SoundStep(h: History, e: Event, next: Store)
    requires SoundHistory(h) && Steps()(h, e, next)
    ensures SoundHistory(h + [next])
  {
    StepSound(h, e);
    var g := h + [next];
    forall i, j | 0 <= i <= j < |g| ensures Extends(g[i], g[j]) {
      if j == |h| && i < |h| {
        assert Extends(h[i], h[|h| - 1]);
        ExtendsTransitive(h[i], Last(h), next);
      }
    }
  }

  lemma RunsAreSound(h: History, es: seq<Event>)
    requires IsRun(h, es)
    ensures SoundHistory(h)
  {
    forall g, e, next {:trigger Steps()(g, e, next)} | g != [] && SoundHistory(g) && Steps()(g, e, next)
      ensures SoundHistory(g + [next])
    {
      SoundStep(g, e, next);
    }
    Induction(h, es, START, Steps(), AlwaysSound());
  }

  lemma {:induction false} FindRetiredAt(retired: seq<Retired>, first: nat, generation: nat)
    requires forall i :: 0 <= i < |retired| ==> retired[i].generation == first + i
    ensures FindRetired(retired, generation)
         == if first <= generation < first + |retired| then Some(retired[generation - first]) else None
  {
    if retired != [] { FindRetiredAt(retired[1..], first + 1, generation); }
  }

  lemma ResolvesToIssued(s: Store, generation: nat)
    requires Sound(s)
    ensures Resolve(s.row, generation).Some? <==> 1 <= generation <= s.row.generation
    ensures 1 <= generation <= s.row.generation ==> Resolve(s.row, generation).value.0 == s.issued[generation]
  {
    FindRetiredAt(s.row.retired, 1, generation);
  }

  /** For any interleaving: every generation up to the current one resolves to the client registered for
      it and no other generation resolves; and what resolves keeps resolving to the same client. */
  lemma GenerationsResolveForever(h: History, es: seq<Event>, i: nat, j: nat, generation: nat)
    requires IsRun(h, es) && i <= j < |h| && h[i].epoch == h[j].epoch
    ensures Resolve(h[i].row, generation).Some? <==> 1 <= generation <= h[i].row.generation
    ensures Resolve(h[i].row, generation).Some? ==>
              && generation in h[i].issued && Resolve(h[j].row, generation).Some?
              && Resolve(h[i].row, generation).value.0 == Resolve(h[j].row, generation).value.0 == h[i].issued[generation]
  {
    RunsAreSound(h, es);
    ResolvesToIssued(h[i], generation);
    ResolvesToIssued(h[j], generation);
    assert Extends(h[i], h[j]);
  }

  // ----------------------------------------------------------------- secrets and scopes

  /** An in-place update computed from an older generation puts the old client's secret beside the new
      client's id; it leaves a matching pair exactly when the client has not changed since it was read. */
  lemma UpdateKeepsSecretIff(h: History, e: Event)
    requires e.UpdateClient? && Possible(h, e) && SecretsOwned(h[e.read].row)
    ensures After(h, e).row.secret.owner == After(h, e).row.client <==> h[e.read].row.client == Last(h).row.client
  {
  }

  /** Every stored client id has its own secret. */
  predicate SecretsOwned(c: Connector) {
    c.secret.owner == c.client && forall r :: r in c.retired ==> r.secret.owner == r.client
  }

  ghost function FreshSteps(): (seq<Store>, Event, Store) -> bool {
    (h: seq<Store>, e: Event, next: Store) =>
      h != [] && Possible(h, e) && next == After(h, e) && SameEpoch(h, e)
      && (e.UpdateClient? ==> h[e.read].epoch == Last(h).epoch && h[e.read].row.generation == Last(h).row.generation)
  }

  ghost predicate OwnedHistory(h: seq<Store>) {
    SoundHistory(h) && forall i :: 0 <= i < |h| ==> SecretsOwned(h[i].row)
  }

  ghost function AlwaysOwned(): (seq<Store>, seq<Event>) -> bool {
    (h: seq<Store>, es: seq<Event>) => h != [] && OwnedHistory(h)
  }

  lemma OwnedStep(h: History, e: Event, next: Store)
    requires OwnedHistory(h) && FreshSteps()(h, e, next)
    ensures OwnedHistory(h + [next])
  {
    SoundStep(h, e, next);
    if e.UpdateClient? { assert Extends(h[e.read], h[|h| - 1]); }
    assert SecretsOwned(next.row);
  }

  lemma StartIsOwned()
    ensures OwnedHistory([START])
  {
  }

  lemma FreshRunsAreOwned(h: History, es: seq<Event>)
    requires RunOf(h, es, START, FreshSteps())
    ensures OwnedHistory(h)
  {
    forall g, e, next {:trigger FreshSteps()(g, e, next)} | g != [] && OwnedHistory(g) && FreshSteps()(g, e, next)
      ensures OwnedHistory(g + [next])
    {
      OwnedStep(g, e, next);
    }
    StartIsOwned();
    Induction(h, es, START, FreshSteps(), AlwaysOwned());
  }

  /** If no in-place update is written over a newer generation, what resolves is always a client with
      its own secret. */
  lemma ResolvedSecretsMatch(h: History, es: seq<Event>, generation: nat)
    requires RunOf(h, es, START, FreshSteps()) && Resolve(Last(h).row, generation).Some?
    ensures var found := Resolve(Last(h).row, generation).value; found.1.owner == found.0
  {
    FreshRunsAreOwned(h, es);
    assert Sound(Last(h)) && SecretsOwned(Last(h).row);
    FindRetiredAt(Last(h).row.retired, 1, generation);
  }

  /** Every step the code can make, whatever is read when. */
  ghost function AnySteps(): (seq<Store>, Event, Store) -> bool {
    (h: seq<Store>, e: Event, next: Store) => h != [] && Possible(h, e) && next == After(h, e)
  }

  /** The update was computed from another client than the one it is written over. */
  predicate CrossesAt(h: seq<Store>, es: seq<Event>, n: nat) {
    && n < |es| && n < |h| && es[n].UpdateClient? && es[n].read < |h|
    && h[es[n].read].row.client != h[n].row.client
  }

  lemma OwnedStepIff(h: History, es: seq<Event>, n: nat)
    requires RunOf(h, es, START, AnySteps()) && n < |es| == |h| - 1
    requires forall i :: 0 <= i <= n ==> SecretsOwned(h[i].row)
    ensures SecretsOwned(h[n + 1].row) <==> !CrossesAt(h, es, n)
  {
    StepAt(h, es, START, AnySteps(), n);
    var g: History, e := h[..n + 1], es[n];
    assert AnySteps()(g, e, h[n + 1]) && Last(g) == h[n];
    if e.UpdateClient? {
      UpdateKeepsSecretIff(g, e);
    } else if e.Replace? {
      assert SecretsOwned(h[e.read].row);
    }
  }

  lemma {:induction false} UncrossedIsOwned(h: History, es: seq<Event>, i: nat)
    requires RunOf(h, es, START, AnySteps()) && i < |h| == |es| + 1 && forall n :: 0 <= n < i ==> !CrossesAt(h, es, n)
    ensures forall j :: 0 <= j <= i ==> SecretsOwned(h[j].row)
    decreases i
  {
    FirstState(h, es, START, AnySteps());
    if i > 0 {
      UncrossedIsOwned(h, es, i - 1);
      OwnedStepIff(h, es, i - 1);
    }
  }

  /** In every run at all, each stored client has its own secret in every state exactly when no in-place update
      is written over another client than it was computed from. */
  lemma SecretsOwnedIff(h: History, es: seq<Event>)
    requires RunOf(h, es, START, AnySteps())
    ensures |h| == |es| + 1
    ensures (forall i :: 0 <= i < |h| ==> SecretsOwned(h[i].row)) <==> forall n :: 0 <= n < |es| ==> !CrossesAt(h, es, n)
  {
    FirstState(h, es, START, AnySteps());
    if forall i :: 0 <= i < |h| ==> SecretsOwned(h[i].row) {
      forall n | 0 <= n < |es| ensures !CrossesAt(h, es, n) { OwnedStepIff(h, es, n); }
    }
    if forall n :: 0 <= n < |es| ==> !CrossesAt(h, es, n) { UncrossedIsOwned(h, es, |h| - 1); }
  }

  /** A replacement that is not turned away lists the generations of the connector it read. */
  lemma ReplacedRetired(h: History, e: Event)
    requires e.Replace? && Possible(h, e) && Sound(h[e.read])
    requires Last(h).row.generation == h[e.read].row.generation
    ensures var retired := After(h, e).row.retired;
      |retired| == Last(h).row.generation
      && forall i :: 0 <= i < |retired| ==> retired[i].generation == i + 1 && retired[i].client == h[e.read].issued[i + 1]
  {
    var read := h[e.read];
    assert After(h, e).row.retired == read.row.retired + [Retired(read.row.generation, read.row.client, read.row.secret)];
  }

  /** A replacement leaves every generation resolving to its registered client exactly when it is turned
      away, or the clients registered up to the generation it read are the ones it read: a caller can
      compare the retired list and the current client. */
  lemma ReplaceKeepsSoundIff(h: History, e: Event)
    requires e.Replace? && Possible(h, e) && Sound(h[e.read]) && Sound(Last(h))
    ensures Sound(After(h, e))
       <==> (Last(h).row.generation != h[e.read].row.generation || Last(h).issued == h[e.read].issued)
  {
    var s, read, next := Last(h), h[e.read], After(h, e);
    if s.row.generation == read.row.generation {
      ReplacedRetired(h, e);
      if Sound(next) {
        forall g | g in s.issued ensures g in read.issued && s.issued[g] == read.issued[g] {
          assert next.row.retired[g - 1].client == next.issued[g - 1 + 1];
        }
        assert s.issued == read.issued;
      }
    }
  }

  ghost predicate Misresolves(s: Store, g: nat)
    requires g in s.issued
  {
    Resolve(s.row, g).None? || Resolve(s.row, g).value.0 != s.issued[g]
  }

  /** And resolving is wrong for some generation exactly otherwise. */
  lemma ReplaceMisresolvesIff(h: History, e: Event)
    requires e.Replace? && Possible(h, e) && Sound(h[e.read]) && Sound(Last(h))
    ensures (exists g :: g in After(h, e).issued && Misresolves(After(h, e), g))
       <==> (Last(h).row.generation == h[e.read].row.generation && Last(h).issued != h[e.read].issued)
  {
    var s, read, next := Last(h), h[e.read], After(h, e);
    ReplaceKeepsSoundIff(h, e);
    if Sound(next) {
      forall g | g in next.issued ensures !Misresolves(next, g) {
        ResolvesToIssued(next, g);
      }
    } else {
      ReplacedRetired(h, e);
      assert forall k :: k in s.issued <==> k in read.issued;
      var g :| g in s.issued && s.issued[g] != read.issued[g];
      FindRetiredAt(next.row.retired, 1, g);
      assert g in next.issued && Misresolves(next, g);
    }
  }

  /** A replacement computed before a reset passes the generation check after it, and then resolves the
      first generation to a client that was never registered as such. */
  lemma ReplaceAcrossResetMisresolves() returns (h: History, e: Event)
    ensures IsRun(h, [Reset(5, 0, None)]) && Possible(h, e) && !SameEpoch(h, e)
    ensures Resolve(After(h, e).row, 1).Some? && 1 in After(h, e).issued
    ensures Resolve(After(h, e).row, 1).value.0 != After(h, e).issued[1]
  {
    var reset, s0: History := Reset(5, 0, None), [START];
    var g, fs := Snoc(s0, [], reset, After(s0, reset), START, Steps());
    h, e := g, Replace(0, 6, 0, {});
    FindRetiredAt(After(h, e).row.retired, 1, 1);
  }

  /** A run in which an in-place update that was computed before a rotation puts the old client's secret
      beside the new client's id, and the current generation resolves to that pair. */
  lemma StaleUpdateMixesSecrets() returns (h: History, es: seq<Event>)
    ensures IsRun(h, es) && es == [Replace(0, 1, 7, {}), UpdateClient(0, Some(8), {})]
    ensures Resolve(Last(h).row, 2) == Some((1, Secret(0, 8)))
  {
    var e0, e1 := Replace(0, 1, 7, {}), UpdateClient(0, Some(8), {});
    var s0: History := [START];
    h, es := Snoc(s0, [], e0, After(s0, e0), START, Steps());
    assert Last(h).row == Connector(2, 1, Secret(1, 7), Some({}), [Retired(1, 0, Secret(0, 0))]);
    h, es := Snoc(h, es, e1, After(h, e1), START, Steps());
    FindRetiredAt(Last(h).row.retired, 1, 2);
  }

  // -------------------------------------------------------------------- the use case

  /** Answers of the authorization server: to reading the registration, updating it, registering anew. */
  datatype ReadReply = Stored(sameClient: bool, remote: Option<set<Scope>>, matches: bool) | ReadUnsupported | ReadFailed
  datatype UpdateReply =
    | Updated(sameClient: bool, newSecret: Option<nat>, returned: Option<set<Scope>>)
    | UpdateUnsupported
    | UpdateFailed
  datatype RegisterReply = Registered(client: ClientId, number: nat, returned: Option<set<Scope>>) | RegisterFailed

  datatype How = AsRead | InPlace | Rotated | Winner

  datatype Result = Generation(generation: nat, how: How) | Error

  /** The generation serves as it is: its scopes suffice and, if the registration can be read back, the server
      has them too. */
  predicate Serves(c: Connector, required: set<Scope>, managed: bool, read: ReadReply) {
    && Covers(c.scopes, required)
    && (managed ==> read.Stored? && read.sameClient && read.matches && read.remote.Some? && required <= read.remote.value)
  }

  /** What was read back forbids going on. */
  predicate Refused(c: Connector, required: set<Scope>, managed: bool, read: ReadReply) {
    Covers(c.scopes, required) && managed && (read.ReadFailed? || (read.Stored? && !read.sameClient))
  }

  /** The server names the scopes it registered, and leaves one out. */
  predicate Omits(returned: Option<set<Scope>>, desired: set<Scope>) {
    returned.Some? && exists scope :: scope in desired && scope !in returned.value
  }

  /** The scopes the server named, or, if it named none, those it was asked for. */
  predicate Granted(stored: Option<set<Scope>>, returned: Option<set<Scope>>, desired: set<Scope>) {
    stored.Some? && (returned.Some? ==> stored == returned) && (returned.None? ==> stored.value == desired)
  }

  /** One repository write: the state it met and the state it left. */
  datatype Write = Write(before: Store, after: Store)

  /** The client is updated in place: nothing but its scopes and, if the server sent one, its secret changes. */
  predicate UpdatesClient(w: Write, read: Connector, reply: UpdateReply, desired: set<Scope>)
    requires reply.Updated?
  {
    var a, b := w.before.row, w.after.row;
    && w.after.issued == w.before.issued && w.after.epoch == w.before.epoch
    && b.generation == a.generation && b.client == a.client && b.retired == a.retired
    && b.secret == (if reply.newSecret.Some? then Secret(read.client, reply.newSecret.value) else read.secret)
    && Granted(b.scopes, reply.returned, desired)
  }

  /** The registered client becomes the next generation, and the one that was read the last retired one. */
  predicate ReplacesClient(w: Write, read: Connector, reply: RegisterReply, desired: set<Scope>)
    requires reply.Registered?
  {
    var b := w.after.row;
    && w.after.issued == w.before.issued[read.generation + 1 := reply.client] && w.after.epoch == w.before.epoch
    && b.generation == read.generation + 1 && b.client == reply.client && b.secret == Secret(reply.client, reply.number)
    && b.retired == read.retired + [Retired(read.generation, read.client, read.secret)]
    && Granted(b.scopes, reply.returned, desired)
  }

  class ConnectorStore {
    var s: Store
    ghost var writes: seq<Write>
    /** No other call commits anything. */
    ghost const alone: bool

    constructor (ghost alone: bool)
      ensures s == START && writes == [] && this.alone == alone
    {
      s := START;
      writes := [];
      this.alone := alone;
    }

    /** An await: other calls may update or rotate the client; no reset comes between. */
    method Elapse()
      requires Sound(s)
      modifies this`s
      ensures Sound(s) && Extends(old(s), s) && s.epoch == old(s).epoch
      ensures alone ==> s == old(s)
    {
    }

    /** update: the row is found by its id alone. */
    method Update(secret: Secret, scopes: set<Scope>)
      modifies this
      ensures s == old(s).(row := UpdateInPlace(old(s).row, secret, scopes)) && writes == old(writes) + [Write(old(s), s)]
    {
      ghost var before := s;
      s := s.(row := UpdateInPlace(s.row, secret, scopes));
      writes := writes + [Write(before, s)];
    }

    method RotateResourceClientGeneration(read: Connector, client: ClientId, secret: Secret, scopes: set<Scope>)
      returns (rotated: bool)
      modifies this
      ensures rotated <==> old(s).row.generation == read.generation
      ensures s == if rotated
                   then Store(Rotate(old(s).row, read, client, secret, scopes), old(s).issued[read.generation + 1 := client],
                              old(s).epoch)
                   else old(s)
      ensures writes == old(writes) + [Write(old(s), s)]
    {
      ghost var before := s;
      rotated := s.row.generation == read.generation;
      if rotated {
        s := Store(Rotate(s.row, read, client, secret, scopes), s.issued[read.generation + 1 := client], s.epoch);
      }
      writes := writes + [Write(before, s)];
    }

    /** ensureDynamicConnectorScopes for a dynamic connector. `managed` is whether the registration can be
        managed, `desired` the scopes the server advertises; log is what this call wrote. */
    method EnsureDynamicConnectorScopes(
        required: set<Scope>, desired: set<Scope>, managed: bool, read: ReadReply, update: UpdateReply, register: RegisterReply)
      returns (r: Result, ghost log: seq<Write>)
      requires Sound(s)
      modifies this
      ensures Sound(s) && Extends(old(s), s) && s.epoch == old(s).epoch && writes == old(writes) + log
      ensures alone ==> (if log == [] then s == old(s) else log[0].before == old(s) && s == log[0].after)
      ensures Serves(old(s).row, required, managed, read) ==>
                r == Generation(old(s).row.generation, AsRead) && log == [] && s == old(s)
      ensures !Serves(old(s).row, required, managed, read)
              && (Refused(old(s).row, required, managed, read) || !(required <= desired)) ==>
                r == Error && log == [] && s == old(s)
      ensures !Serves(old(s).row, required, managed, read) && !Refused(old(s).row, required, managed, read)
              && required <= desired ==>
                if managed && !update.UpdateUnsupported? then AfterUpdate(old(s).row, required, desired, update, r, log, s)
                else AfterRegistering(old(s).row, required, desired, register, r, log, s)
    {
      log := [];
      var connector := s.row;
      if Covers(connector.scopes, required) {
        if !managed { return Generation(connector.generation, AsRead), log; }
        match read
        case Stored(sameClient, remote, matches) =>
          if !sameClient { return Error, log; }
          if remote.Some? && required <= remote.value && matches { return Generation(connector.generation, AsRead), log; }
        case ReadUnsupported =>
        case ReadFailed => return Error, log;
      }
      if !(required <= desired) { return Error, log; }
      Elapse();
      if managed {
        match update
        case Updated(sameClient, newSecret, returned) =>
          var scopes := RegisteredScopes(returned, desired);
          if scopes.None? || !sameClient { return Error, log; }
          ghost var before := s;
          Update(UpdatedSecret(connector, newSecret), scopes.value);
          log := [Write(before, s)];
          return Generation(connector.generation, InPlace), log;
        case UpdateUnsupported =>
        case UpdateFailed => return Error, log;
      }
      r, log := RegisterReplacement(connector, required, desired, register);
    }

    method RegisterReplacement(connector: Connector, required: set<Scope>, desired: set<Scope>, register: RegisterReply)
      returns (r: Result, ghost log: seq<Write>)
      requires Sound(s) && required <= desired && connector.generation <= s.row.generation
      requires connector.generation == s.row.generation ==>
                 connector.retired == s.row.retired && connector.client == s.row.client
      modifies this
      ensures Sound(s) && Extends(old(s), s) && s.epoch == old(s).epoch && writes == old(writes) + log
      ensures log != [] ==> log[0].before == old(s)
      ensures alone ==> if log == [] then s == old(s) else s == log[0].after
      ensures AfterRegistering(connector, required, desired, register, r, log, s)
    {
      log := [];
      if register.RegisterFailed? { return Error, log; }
      var scopes := RegisteredScopes(register.returned, desired);
      if scopes.None? { return Error, log; }
      var client, secret := register.client, Secret(register.client, register.number);
      ghost var before := s;
      var rotated := RotateResourceClientGeneration(connector, client, secret, scopes.value);
      log := [Write(before, s)];
      if rotated { return Generation(connector.generation + 1, Rotated), log; }
      Elapse();
      if s.row.generation > connector.generation && Covers(s.row.scopes, required) {
        return Generation(s.row.generation, Winner), log;
      }
      return Error, log;
    }
  }

  /** The outcome of an update that was asked for: an answer that changes the client or omits a scope writes
      nothing, any other is stored as the server gave it. */
  predicate AfterUpdate(c: Connector, required: set<Scope>, desired: set<Scope>, update: UpdateReply, r: Result,
                        log: seq<Write>, end: Store)
  {
    if update.Updated? && update.sameClient && !Omits(update.returned, desired)
    then r == Generation(c.generation, InPlace) && |log| == 1 && UpdatesClient(log[0], c, update, desired)
         && end == log[0].after && Covers(end.row.scopes, required)
    else r == Error && log == []
  }

  /** The outcome of registering anew: an answer that omits a scope writes nothing; the new client becomes the next
      generation unless another came first, which then serves exactly when its scopes suffice. */
  predicate AfterRegistering(c: Connector, required: set<Scope>, desired: set<Scope>, register: RegisterReply, r: Result,
                             log: seq<Write>, end: Store)
  {
    if register.RegisterFailed? || Omits(register.returned, desired) then r == Error && log == []
    else
      && |log| == 1
      && if log[0].before.row.generation == c.generation
         then && r == Generation(c.generation + 1, Rotated) && ReplacesClient(log[0], c, register, desired)
              && end == log[0].after && Covers(end.row.scopes, required)
         else && log[0].after == log[0].before
              && r == if end.row.generation > c.generation && Covers(end.row.scopes, required)
                      then Generation(end.row.generation, Winner) else Error
  }
}
