/** The authentication instance cached between requests of one worker (server/worker.ts), with the
    deadlines of server/initialization-deadline.ts. Requests interleave at their awaits. */
module AuthCache {
  import opened Options
  import opened Runs

  type Time = int
  /** A binding of the environment: the database, the email sender. */
  type Binding = nat

  const REFRESH_INTERVAL: Time := 5000
  const DEADLINE: Time := 5000

  /** The cache key: what the environment and the security policy fix, and what the database holds. */
  datatype Key = Key(fixed: nat, dynamic: nat)

  /** An authentication instance, with what it was built from. */
  datatype Auth = Auth(key: Key, db: Binding, email: Binding)

  /** The cached* fields of the worker; they are only ever written together. */
  datatype Cache = Cache(auth: Auth, key: Key, staticKey: nat, db: Binding, email: Binding, validatedAt: Time)

  /** A getAuth call waiting for the configuration, or for the instance it is building. */
  datatype Call =
    | Loading(staticKey: nat, db: Binding, email: Binding, begun: Time)
    | Building(key: Key, db: Binding, email: Binding, begun: Time, since: Time)

  /** `reader` records the call whose read the cached instance was last validated by. */
  datatype Worker = Worker(cache: Option<Cache>, clock: Time, calls: map<nat, Call>, reader: Option<nat>)

  datatype Request = Request(staticKey: nat, db: Binding, email: Binding, resourceToken: bool, force: bool)

  /** The test at the head of getAuth. */
  function FastPath(w: Worker, r: Request): Option<Auth> {
    if w.cache.Some? && w.cache.value.staticKey == r.staticKey && w.cache.value.db == r.db
       && w.cache.value.email == r.email && !r.force
       && (r.resourceToken || w.clock - w.cache.value.validatedAt < REFRESH_INTERVAL)
    then Some(w.cache.value.auth) else None
  }

  predicate SameInstance(w: Worker, key: Key, db: Binding, email: Binding) {
    w.cache.Some? && w.cache.value.key == key && w.cache.value.db == db && w.cache.value.email == email
  }

  // ---------------------------------------------------------------------------- runs

  /** A call is known by the position of the event that began it. */
  datatype Event =
    | Tick(time: Time)
    | Begin(request: Request)
    | Loaded(call: nat, dynamic: nat)
    | Built(call: nat)
    | Fail(call: nat)

  type History = h: seq<Worker> | h != [] witness [START]

  const START := Worker(None, 0, map[], None)

  function Last(h: History): Worker {
    h[|h| - 1]
  }

  /** An await ends within its deadline, or the call fails. */
  predicate Possible(h: History, e: Event) {
    var w := Last(h);
    match e
    case Tick(time) => w.clock <= time
    case Begin(_) => true
    case Loaded(call, _) => call in w.calls && w.calls[call].Loading? && w.clock <= w.calls[call].begun + DEADLINE
    case Built(call) => call in w.calls && w.calls[call].Building? && w.clock <= w.calls[call].since + DEADLINE
    case Fail(call) => call in w.calls
  }

  function After(h: History, e: Event): Worker
    requires Possible(h, e)
  {
    var w := Last(h);
    match e
    case Tick(time) => w.(clock := time)
    case Begin(r) =>
      if FastPath(w, r).Some? then w
      else w.(calls := w.calls[|h| - 1 := Loading(r.staticKey, r.db, r.email, w.clock)])
    case Loaded(call, dynamic) =>
      var c := w.calls[call];
      var key := Key(c.staticKey, dynamic);
      if SameInstance(w, key, c.db, c.email)
      then w.(cache := Some(w.cache.value.(validatedAt := w.clock)), calls := w.calls - {call}, reader := Some(call))
      else w.(calls := w.calls[call := Building(key, c.db, c.email, c.begun, w.clock)])
    case Built(call) =>
      var c := w.calls[call];
      w.(cache := Some(Cache(Auth(c.key, c.db, c.email), c.key, c.key.fixed, c.db, c.email, w.clock)),
         calls := w.calls - {call}, reader := Some(call))
    case Fail(call) => w.(calls := w.calls - {call})
  }

  /** What a call returns at this event, if it returns. */
  function Returned(h: History, e: Event): Option<Auth>
    requires Possible(h, e)
  {
    match e
    case Begin(r) => FastPath(Last(h), r)
    case Loaded(call, _) => if call in After(h, e).calls then None else Some(After(h, e).cache.value.auth)
    case Built(_) => Some(After(h, e).cache.value.auth)
    case _ => None
  }

  ghost function Steps(): (seq<Worker>, Event, Worker) -> bool {
    (h: seq<Worker>, e: Event, next: Worker) => h != [] && Possible(h, e) && next == After(h, e)
  }

  ghost predicate IsRun(h: History, es: seq<Event>) {
    RunOf(h, es, START, Steps())
  }

  /** Call `call` began with this request and had read this configuration by event j. */
  predicate ReadBy(h: seq<Worker>, es: seq<Event>, call: nat, j: nat, key: Key, db: Binding, email: Binding, begun: Time)
    requires |h| == |es| + 1
  {
    && call < j < |es| && es[call].Begin? && es[j] == Loaded(call, key.dynamic)
    && es[call].request.staticKey == key.fixed && es[call].request.db == db && es[call].request.email == email
    && h[call].clock == begun
  }

  ghost predicate CallSound(h: seq<Worker>, es: seq<Event>, call: nat, c: Call)
    requires |h| == |es| + 1
  {
    match c
    case Loading(staticKey, db, email, begun) =>
      && call < |es| && es[call].Begin? && es[call].request.staticKey == staticKey
      && es[call].request.db == db && es[call].request.email == email && h[call].clock == begun
    case Building(key, db, email, begun, since) =>
      since <= begun + DEADLINE && exists j :: ReadBy(h, es, call, j, key, db, email, begun)
  }

  /** The cached instance is the one its key describes, and was confirmed by a read of call `reader` that
      began at most two deadlines before it was last validated. */
  ghost predicate CacheSound(h: seq<Worker>, es: seq<Event>, c: Cache, reader: Option<nat>)
    requires |h| == |es| + 1
  {
    && c.auth == Auth(c.key, c.db, c.email) && c.staticKey == c.key.fixed && reader.Some?
    && exists j, begun ::
         c.validatedAt <= begun + 2 * DEADLINE && ReadBy(h, es, reader.value, j, c.key, c.db, c.email, begun)
  }

  ghost predicate Sound(h: seq<Worker>, es: seq<Event>) {
    && |h| == |es| + 1
    && (h[|es|].cache.Some? ==> CacheSound(h, es, h[|es|].cache.value, h[|es|].reader))
    && (forall c :: c in h[|es|].calls ==> CallSound(h, es, c, h[|es|].calls[c]))
  }

  lemma CallStaysSound(h: seq<Worker>, es: seq<Event>, e: Event, next: Worker, call: nat, c: Call)
    requires |h| == |es| + 1 && CallSound(h, es, call, c)
    ensures CallSound(h + [next], es + [e], call, c)
  {
    if c.Building? {
      var j :| ReadBy(h, es, call, j, c.key, c.db, c.email, c.begun);
      assert ReadBy(h + [next], es + [e], call, j, c.key, c.db, c.email, c.begun);
    }
  }

  lemma CacheStaysSound(h: seq<Worker>, es: seq<Event>, e: Event, next: Worker, c: Cache, reader: Option<nat>)
    requires |h| == |es| + 1 && CacheSound(h, es, c, reader)
    ensures CacheSound(h + [next], es + [e], c, reader)
  {
    var j, begun :| c.validatedAt <= begun + 2 * DEADLINE && ReadBy(h, es, reader.value, j, c.key, c.db, c.email, begun);
    assert ReadBy(h + [next], es + [e], reader.value, j, c.key, c.db, c.email, begun);
  }

  /** The read a call has just finished. */
  lemma LoadedIsRead(h: History, es: seq<Event>, e: Event, next: Worker)
    requires Sound(h, es) && e.Loaded? && Possible(h, e)
    ensures var c := Last(h).calls[e.call];
            ReadBy(h + [next], es + [e], e.call, |es|, Key(c.staticKey, e.dynamic), c.db, c.email, c.begun)
  {
    assert CallSound(h, es, e.call, Last(h).calls[e.call]);
  }

  lemma CallsStep(h: History, es: seq<Event>, e: Event, next: Worker, call: nat)
    requires Sound(h, es) && Steps()(h, e, next) && call in next.calls
    ensures CallSound(h + [next], es + [e], call, next.calls[call])
  {
    if call in Last(h).calls && next.calls[call] == Last(h).calls[call] {
      CallStaysSound(h, es, e, next, call, next.calls[call]);
    } else if e.Loaded? {
      LoadedIsRead(h, es, e, next);
    }
  }

  lemma CacheStep(h: History, es: seq<Event>, e: Event, next: Worker)
    requires Sound(h, es) && Steps()(h, e, next) && next.cache.Some?
    ensures CacheSound(h + [next], es + [e], next.cache.value, next.reader)
  {
    match e
    case Loaded(call, dynamic) =>
      LoadedIsRead(h, es, e, next);
      if call in next.calls { CacheStaysSound(h, es, e, next, next.cache.value, next.reader); }
    case Built(call) =>
      var c := Last(h).calls[call];
      CallStaysSound(h, es, e, next, call, c);
      var j :| ReadBy(h + [next], es + [e], call, j, c.key, c.db, c.email, c.begun);
    case _ => CacheStaysSound(h, es, e, next, next.cache.value, next.reader);
  }

  lemma SoundStep(h: History, es: seq<Event>, e: Event, next: Worker)
    requires Sound(h, es) && Steps()(h, e, next)
    ensures Sound(h + [next], es + [e])
  {
    forall c | c in next.calls ensures CallSound(h + [next], es + [e], c, next.calls[c]) { CallsStep(h, es, e, next, c); }
    if next.cache.Some? { CacheStep(h, es, e, next); }
  }

  ghost function AlwaysSound(): (seq<Worker>, seq<Event>) -> bool {
    (h: seq<Worker>, es: seq<Event>) => Sound(h, es)
  }

  lemma RunsAreSound(h: History, es: seq<Event>)
    requires IsRun(h, es)
    ensures Sound(h, es)
  {
    forall g, fs, e, next {:trigger Steps()(g, e, next), AlwaysSound()(g, fs)} | AlwaysSound()(g, fs) && Steps()(g, e, next)
      ensures AlwaysSound()(g + [next], fs + [e])
    {
      SoundStep(g, fs, e, next);
    }
    Induction(h, es, START, Steps(), AlwaysSound());
  }

  // ----------------------------------------------------------------------- promises

  /** A call that has loaded its configuration returns an instance with exactly the key it loaded and
      the bindings it was made with, whatever other requests cached meanwhile. */
  lemma SlowPathReturnsLoaded(h: History, es: seq<Event>, e: Event)
    requires IsRun(h, es) && Possible(h, e) && (e.Loaded? || e.Built?) && Returned(h, e).Some?
    ensures e.call < |es| && es[e.call].Begin?
    ensures var a, r := Returned(h, e).value, es[e.call].request;
            && a.key.fixed == r.staticKey && a.db == r.db && a.email == r.email
            && (e.Loaded? ==> a.key.dynamic == e.dynamic)
            && (e.Built? ==> exists j :: 0 <= j < |es| && es[j] == Loaded(e.call, a.key.dynamic))
  {
    RunsAreSound(h, es);
    var c := Last(h).calls[e.call];
    assert CallSound(h, es, e.call, c);
    if e.Built? { var j :| ReadBy(h, es, e.call, j, c.key, c.db, c.email, c.begun); }
  }

  /** No cached field changes but in the event in which a call returns what is then cached; a failed load
      or build changes none. */
  lemma FailureKeepsCache(h: History, e: Event)
    requires Possible(h, e)
    ensures e.Fail? ==> After(h, e).cache == Last(h).cache
    ensures After(h, e).cache == Last(h).cache || Returned(h, e).Some?
    ensures Returned(h, e).Some? ==> After(h, e).cache.Some? && Returned(h, e).value == After(h, e).cache.value.auth
  {
  }

  /** An instance served without reading is one whose configuration somebody began to read less than
      15 seconds ago, unless the request carries a resource token. */
  lemma FastPathIsRecent(h: History, es: seq<Event>, r: Request) returns (call: nat, j: nat)
    requires IsRun(h, es) && FastPath(Last(h), r).Some? && !r.resourceToken
    ensures |h| == |es| + 1 && call < j < |es|
    ensures Last(h).reader == Some(call)
    ensures var a := FastPath(Last(h), r).value;
            && a.key.fixed == r.staticKey && a.db == r.db && a.email == r.email
            && ReadBy(h, es, call, j, a.key, a.db, a.email, h[call].clock)
            && Last(h).clock - h[call].clock < REFRESH_INTERVAL + 2 * DEADLINE
  {
    RunsAreSound(h, es);
    var c := Last(h).cache.value;
    call := Last(h).reader.value;
    var l, begun :| c.validatedAt <= begun + 2 * DEADLINE && ReadBy(h, es, call, l, c.key, c.db, c.email, begun);
    j := l;
  }

  lemma Next(h: History, es: seq<Event>, e: Event) returns (g: History, fs: seq<Event>)
    requires IsRun(h, es) && Possible(h, e)
    ensures IsRun(g, fs) && g == h + [After(h, e)] && fs == es + [e] && Last(g) == After(h, e)
  {
    g, fs := Snoc(h, es, e, After(h, e), START, Steps());
  }

  const REQUEST := Request(1, 1, 1, false, false)

  /** The bound is reached: 14 999 ms after the only read began, the instance is still served. */
  lemma BoundIsTight() returns (h: History, es: seq<Event>)
    ensures IsRun(h, es) && FastPath(Last(h), REQUEST).Some? && Last(h).clock == 14999
    ensures |h| == |es| + 1 && forall i :: 0 <= i < |es| && es[i].Begin? ==> h[i].clock == 0
  {
    h, es := OneCallLoading();
    h, es := Next(h, es, Tick(5000));
    h, es := Next(h, es, Loaded(0, 7));
    assert Last(h).calls == map[0 := Building(Key(1, 7), 1, 1, 0, 5000)];
    h, es := Next(h, es, Tick(10000));
    h, es := Next(h, es, Built(0));
    h, es := Next(h, es, Tick(14999));
  }

  lemma OneCallLoading() returns (h: History, es: seq<Event>)
    ensures IsRun(h, es) && |h| == 2 && es == [Begin(REQUEST)] && h[0].clock == 0
    ensures Last(h) == Worker(None, 0, map[0 := Loading(1, 1, 1, 0)], None)
  {
    BeginsLoading();
    h, es := Next([START], [], Begin(REQUEST));
  }

  lemma BeginsLoading()
    ensures IsRun([START], []) && Possible([START], Begin(REQUEST))
    ensures After([START], Begin(REQUEST)) == Worker(None, 0, map[0 := Loading(1, 1, 1, 0)], None)
  {
  }

  /** Two calls are loading, the second of which began later. */
  lemma TwoCallsLoading() returns (h: History, es: seq<Event>)
    ensures IsRun(h, es) && |h| == 4 && es == [Begin(REQUEST), Tick(1), Begin(REQUEST)]
    ensures h[0].clock == 0 && h[2].clock == 1
    ensures Last(h) == Worker(None, 1, map[0 := Loading(1, 1, 1, 0), 2 := Loading(1, 1, 1, 1)], None)
  {
    h, es := OneCallLoading();
    h, es := Next(h, es, Tick(1));
    h, es := Next(h, es, Begin(REQUEST));
  }

  /** The later one finishes, and its instance is served. */
  lemma LaterCallServed() returns (h: History, es: seq<Event>)
    ensures IsRun(h, es) && |h| == 6 && es == [Begin(REQUEST), Tick(1), Begin(REQUEST), Loaded(2, 8), Built(2)]
    ensures h[0].clock == 0 && h[2].clock == 1
    ensures Last(h).calls == map[0 := Loading(1, 1, 1, 0)] && Last(h).clock == 1
    ensures Last(h).cache == Some(Cache(Auth(Key(1, 8), 1, 1), Key(1, 8), 1, 1, 1, 1))
  {
    h, es := TwoCallsLoading();
    h, es := Next(h, es, Loaded(2, 8));
    assert Last(h).calls == map[0 := Loading(1, 1, 1, 0), 2 := Building(Key(1, 8), 1, 1, 1, 1)];
    h, es := Next(h, es, Built(2));
  }

  // ------------------------------------------------------------------ the order of reads

  /** The event in which a call's read becomes the one behind the cache. */
  predicate Finishes(w: Worker, e: Event) {
    || e.Built?
    || (e.Loaded? && e.call in w.calls && w.calls[e.call].Loading?
        && SameInstance(w, Key(w.calls[e.call].staticKey, e.dynamic), w.calls[e.call].db, w.calls[e.call].email))
  }

  /** The cache comes to rest on a read that began earlier than the one before. */
  predicate MovesBack(w: Worker, next: Worker) {
    w.reader.Some? && next.reader.Some? && next.reader.value < w.reader.value
  }

  predicate GoesBackAt(h: seq<Worker>, n: nat)
    requires n + 1 < |h|
  {
    MovesBack(h[n], h[n + 1])
  }

  lemma ReaderAfter(h: History, es: seq<Event>, n: nat)
    requires IsRun(h, es) && n < |es|
    ensures |h| == |es| + 1 && h[n + 1].reader == if Finishes(h[n], es[n]) then Some(es[n].call) else h[n].reader
  {
    StepAt(h, es, START, Steps(), n);
    assert Steps()(h[..n + 1], es[n], h[n + 1]) && Last(h[..n + 1]) == h[n];
  }

  /** An event moves the cache back exactly when it finishes a call that began before the one whose read
      the cache rests on. */
  lemma MovesBackIff(h: History, es: seq<Event>, n: nat)
    requires IsRun(h, es) && n < |es|
    ensures |h| == |es| + 1
    ensures MovesBack(h[n], h[n + 1])
       <==> Finishes(h[n], es[n]) && h[n].reader.Some? && es[n].call < h[n].reader.value
  {
    ReaderAfter(h, es, n);
  }

  /** The read behind the cache is that of the last call that finished. */
  lemma {:induction false} ReaderIsFinished(h: History, es: seq<Event>, n: nat) returns (m: nat)
    requires IsRun(h, es) && n < |h| && h[n].reader.Some?
    ensures |h| == |es| + 1 && m < n && Finishes(h[m], es[m]) && h[n].reader == Some(es[m].call)
    decreases n
  {
    FirstState(h, es, START, Steps());
    ReaderAfter(h, es, n - 1);
    if Finishes(h[n - 1], es[n - 1]) { m := n - 1; } else { m := ReaderIsFinished(h, es, n - 1); }
  }

  lemma {:induction false} ReaderGrows(h: History, es: seq<Event>, m: nat, n: nat)
    requires IsRun(h, es) && m <= n < |h| && h[m].reader.Some?
    requires forall k :: 0 <= k < |h| - 1 ==> !GoesBackAt(h, k)
    ensures h[n].reader.Some? && h[m].reader.value <= h[n].reader.value
    decreases n
  {
    if m < n {
      ReaderGrows(h, es, m, n - 1);
      FirstState(h, es, START, Steps());
      ReaderAfter(h, es, n - 1);
      assert !GoesBackAt(h, n - 1);
    }
  }

  /** A run never moves the cache back exactly when its calls finish in the order in which they began. */
  lemma NeverBackIffInOrder(h: History, es: seq<Event>)
    requires IsRun(h, es)
    ensures |h| == |es| + 1
    ensures (forall n :: 0 <= n < |es| ==> !GoesBackAt(h, n))
       <==> forall m, n :: 0 <= m < n < |es| && Finishes(h[m], es[m]) && Finishes(h[n], es[n]) ==> es[m].call <= es[n].call
  {
    FirstState(h, es, START, Steps());
    if forall n :: 0 <= n < |es| ==> !GoesBackAt(h, n) {
      forall m, n | 0 <= m < n < |es| && Finishes(h[m], es[m]) && Finishes(h[n], es[n]) ensures es[m].call <= es[n].call {
        ReaderAfter(h, es, m);
        ReaderAfter(h, es, n);
        ReaderGrows(h, es, m + 1, n + 1);
      }
    } else {
      var n :| 0 <= n < |es| && GoesBackAt(h, n);
      MovesBackIff(h, es, n);
      var m := ReaderIsFinished(h, es, n);
    }
  }

  /** One call at a time: nothing waits when a call begins. */
  ghost predicate OneAtATime(h: History, es: seq<Event>) {
    |h| == |es| + 1 && forall n :: 0 <= n < |es| && es[n].Begin? ==> h[n].calls == map[]
  }

  ghost predicate OneWaiting(w: Worker, n: nat) {
    && (w.reader.Some? ==> w.reader.value < n && forall c :: c in w.calls ==> w.reader.value < c)
    && (forall c :: c in w.calls ==> c < n)
    && (forall c, d :: c in w.calls && d in w.calls ==> c == d)
  }

  lemma OneWaitingStep(h: History, e: Event)
    requires Possible(h, e) && OneWaiting(Last(h), |h| - 1) && (e.Begin? ==> Last(h).calls == map[])
    ensures OneWaiting(After(h, e), |h|)
  {
  }

  lemma {:induction false} StaysOneWaiting(h: History, es: seq<Event>, n: nat)
    requires IsRun(h, es) && OneAtATime(h, es) && n < |h|
    ensures OneWaiting(h[n], n)
    decreases n
  {
    FirstState(h, es, START, Steps());
    if n > 0 {
      StaysOneWaiting(h, es, n - 1);
      StepAt(h, es, START, Steps(), n - 1);
      var g: History := h[..n - 1 + 1];
      assert Steps()(g, es[n - 1], h[n]) && Last(g) == h[n - 1] && |g| == n;
      OneWaitingStep(g, es[n - 1]);
    }
  }

  /** A worker that begins a call only when none is waiting never moves the cache back. */
  lemma OneAtATimeNeverGoesBack(h: History, es: seq<Event>, n: nat)
    requires IsRun(h, es) && OneAtATime(h, es) && n < |es|
    ensures !MovesBack(h[n], h[n + 1])
  {
    StaysOneWaiting(h, es, n);
    MovesBackIff(h, es, n);
    StepAt(h, es, START, Steps(), n);
    assert Steps()(h[..n + 1], es[n], h[n + 1]) && Last(h[..n + 1]) == h[n];
  }

  /** A read that began earlier may finish later: the instance built from it replaces one that was built
      from a later read and is already being served. */
  lemma EarlierReadReplacesLater() returns (h: History, es: seq<Event>)
    ensures IsRun(h, es) && |h| == 8 && h[0].clock < h[2].clock
    ensures es == [Begin(REQUEST), Tick(1), Begin(REQUEST), Loaded(2, 8), Built(2), Loaded(0, 7), Built(0)]
    ensures FastPath(h[5], REQUEST) == Some(Auth(Key(1, 8), 1, 1))
    ensures FastPath(h[7], REQUEST) == Some(Auth(Key(1, 7), 1, 1)) && MovesBack(h[6], h[7])
  {
    h, es := LaterCallServed();
    assert Last(h) == h[5];
    h, es := Next(h, es, Loaded(0, 7));
    h, es := Next(h, es, Built(0));
  }

  // ----------------------------------------------------------------- the worker's fields

  /** What an await brings: a value within the deadline, or a failure. */
  datatype Reply<T> = Reply(value: T) | Failure

  /** The module-level fields of the worker. `readAt` is when the read behind each cached value began. */
  class WorkerFields {
    var cachedAuth: Option<Auth>
    var cachedKey: Key
    var cachedStaticKey: nat
    var cachedDb: Binding
    var cachedEmail: Binding
    var cachedValidatedAt: Time
    var cachedSecurityPolicy: Option<nat>
    var cachedSecurityPolicyDb: Binding
    var cachedSecurityPolicyAt: Time
    var clock: Time
    ghost var readAt: Time
    ghost var policyReadAt: Time
    /** No other request runs. */
    ghost const alone: bool

    ghost predicate Valid()
      reads this
    {
      && (cachedAuth.Some? ==>
            && cachedAuth.value == Auth(cachedKey, cachedDb, cachedEmail) && cachedStaticKey == cachedKey.fixed
            && cachedValidatedAt <= clock && cachedValidatedAt <= readAt + 2 * DEADLINE)
      && (cachedSecurityPolicy.Some? ==>
            cachedSecurityPolicyAt <= clock && cachedSecurityPolicyAt <= policyReadAt + DEADLINE)
    }

    /** The cached instance serves the request as it is. */
    predicate Serves(r: Request)
      reads this
    {
      && cachedAuth.Some? && cachedStaticKey == r.staticKey && cachedDb == r.db && cachedEmail == r.email && !r.force
      && (r.resourceToken || clock - cachedValidatedAt < REFRESH_INTERVAL)
    }

    predicate PolicyServes(db: Binding)
      reads this
    {
      cachedSecurityPolicy.Some? && cachedSecurityPolicyDb == db && clock - cachedSecurityPolicyAt < REFRESH_INTERVAL
    }

    constructor (ghost alone: bool)
      ensures Valid() && cachedAuth.None? && cachedSecurityPolicy.None? && this.alone == alone
    {
      this.alone := alone;
      cachedAuth, cachedKey, cachedStaticKey, cachedDb, cachedEmail := None, Key(0, 0), 0, 0, 0;
      cachedSecurityPolicy, cachedSecurityPolicyDb := None, 0;
      cachedValidatedAt, cachedSecurityPolicyAt, clock, readAt, policyReadAt := 0, 0, 0, 0, 0;
    }

    /** withinInitializationDeadline around an await: other requests run, at most the deadline passes. */
    method Elapse()
      requires Valid()
      modifies this
      ensures Valid() && old(clock) <= clock <= old(clock) + DEADLINE
      ensures alone ==>
                cachedAuth == old(cachedAuth) && cachedKey == old(cachedKey) && cachedDb == old(cachedDb)
                && cachedEmail == old(cachedEmail)
    {
    }

    /** getAuth. The cached instance is returned exactly when it serves the request, and for an ordinary request it
        rests on a read begun less than 15 s ago. Else the answer is the instance for the key that was loaded, and
        there is none only if the load failed, or a build that was needed. */
    method GetAuth(r: Request, loaded: Reply<nat>, built: bool) returns (auth: Option<Auth>, slow: bool)
      requires Valid()
      modifies this
      ensures Valid()
      ensures !slow <==> old(Serves(r))
      ensures !slow ==>
                auth == old(cachedAuth) == Some(Auth(Key(r.staticKey, cachedKey.dynamic), r.db, r.email)) && unchanged(this)
      ensures !slow && !r.resourceToken ==> clock - readAt < REFRESH_INTERVAL + 2 * DEADLINE
      ensures auth.Some? && slow ==>
                loaded.Reply? && auth == Some(Auth(Key(r.staticKey, loaded.value), r.db, r.email)) == cachedAuth
                && cachedValidatedAt == clock && old(clock) == readAt
      ensures slow && loaded.Reply? && built ==> auth.Some?
      ensures alone && slow && loaded.Reply? ==>
                (auth.Some? <==> built || old(cachedAuth) == Some(Auth(Key(r.staticKey, loaded.value), r.db, r.email)))
      ensures alone && auth.None? ==>
                cachedAuth == old(cachedAuth) && cachedKey == old(cachedKey) && cachedDb == old(cachedDb)
                && cachedEmail == old(cachedEmail)
    {
      if cachedAuth.Some? && cachedStaticKey == r.staticKey && cachedDb == r.db && cachedEmail == r.email && !r.force
         && (r.resourceToken || clock - cachedValidatedAt < REFRESH_INTERVAL) {
        return cachedAuth, false;
      }
      ghost var begun := clock;
      Elapse();
      if loaded.Failure? { return None, true; }
      var cacheKey := Key(r.staticKey, loaded.value);
      if cachedAuth.None? || cachedKey != cacheKey || cachedDb != r.db || cachedEmail != r.email {
        var instance := Auth(cacheKey, r.db, r.email);
        Elapse();
        if !built { return None, true; }
        cachedAuth, cachedKey, cachedStaticKey := Some(instance), cacheKey, r.staticKey;
        cachedDb, cachedEmail := r.db, r.email;
      }
      cachedValidatedAt := clock;
      readAt := begun;
      return cachedAuth, true;
    }

    /** loadSecurityPolicy: the policy returned was read from this database, beginning less than 10 s ago; the
        cached one is returned exactly when it serves, and there is none only if reading it anew failed. */
    method LoadSecurityPolicy(db: Binding, loaded: Reply<nat>) returns (policy: Option<nat>)
      requires Valid()
      modifies this
      ensures Valid()
      ensures policy.None? <==> !old(PolicyServes(db)) && loaded.Failure?
      ensures old(PolicyServes(db)) ==> policy == old(cachedSecurityPolicy) && unchanged(this)
      ensures !old(PolicyServes(db)) && loaded.Reply? ==>
                policy == Some(loaded.value) && cachedSecurityPolicyAt == clock && policyReadAt == old(clock)
      ensures policy.Some? ==> policy == cachedSecurityPolicy && cachedSecurityPolicyDb == db
      ensures policy.Some? ==> clock - policyReadAt < REFRESH_INTERVAL + DEADLINE
    {
      if cachedSecurityPolicy.Some? && cachedSecurityPolicyDb == db && clock - cachedSecurityPolicyAt < REFRESH_INTERVAL {
        return cachedSecurityPolicy;
      }
      ghost var begun := clock;
      Elapse();
      if loaded.Failure? { return None; }
      cachedSecurityPolicy, cachedSecurityPolicyDb, cachedSecurityPolicyAt := Some(loaded.value), db, clock;
      policyReadAt := begun;
      return cachedSecurityPolicy;
    }
  }
}
