/** Which scopes of a resource a user effectively has (server/usecases/resource-scope-entitlements.ts,
    server/usecases/organization-membership-scopes.ts), and which of them an access token gets
    (filterOAuthAccessTokenScopes in server/auth-helpers.ts). */
module ScopeResolution {
  import opened JsText
  import opened Options
  import opened Sequences
  import opened AuthorizationDetails

  type Id = nat
  type Role = nat
  type Scope = Text

  const OWNER: Role := 0

  datatype GrantMode = Automatic | Assigned

  datatype Declared = Declared(value: Scope, mode: GrantMode)

  datatype Resource = Resource(
    id: Id, realmroot: bool, enabled: bool, public: bool, owner: Option<Id>, registry: seq<Declared>)

  datatype Membership = Membership(organization: Id, roles: seq<Role>)

  /** An active entitlement of the user for the resource. */
  datatype Entitlement = Entitlement(organization: Option<Id>, scope: Scope)

  /** The tenant a request is made for: unspecified, the user's own, or an organization. */
  datatype Tenant = Any | Personal | Organization(id: Id)

  /** Role definitions: the predefined ones, the registry of Realmroot's own scopes, and what the roles of
      an organization grant, as pairs of a resource and a scope. */
  datatype Roles = Roles(
    predefined: map<Role, seq<Scope>>, realm: set<Scope>, dynamic: map<(Id, Role), seq<(Id, Scope)>>)

  // --------------------------------------------------------------- the meaning of "effective"

  predicate DeclaredAs(r: Resource, s: Scope, mode: GrantMode) {
    Declared(s, mode) in r.registry
  }

  predicate IsDeclared(r: Resource, s: Scope) {
    DeclaredAs(r, s, Automatic) || DeclaredAs(r, s, Assigned)
  }

  predicate RoleGrants(w: Roles, organization: Id, role: Role, r: Resource, s: Scope) {
    || (r.realmroot && role in w.predefined && s in w.predefined[role])
    || ((organization, role) in w.dynamic && (r.id, s) in w.dynamic[(organization, role)])
  }

  predicate RolesGrant(w: Roles, m: Membership, r: Resource, s: Scope) {
    exists role :: role in m.roles && RoleGrants(w, m.organization, role, r, s)
  }

  predicate Visible(r: Resource, organization: Id) {
    r.enabled && (r.public || r.owner == Some(organization))
  }

  /** What a membership yields for the resource. */
  predicate Yields(w: Roles, m: Membership, r: Resource, s: Scope) {
    if r.realmroot then s in w.realm && RolesGrant(w, m, r, s)
    else
      && Visible(r, m.organization) && DeclaredAs(r, s, Assigned)
      && (RolesGrant(w, m, r, s) || (r.owner == Some(m.organization) && OWNER in m.roles))
  }

  predicate Counts(m: Membership, r: Resource, tenant: Tenant) {
    match tenant
    case Any => r.public || r.owner == Some(m.organization)
    case Personal => false
    case Organization(id) => m.organization == id
  }

  predicate Matches(e: Entitlement, tenant: Tenant) {
    match tenant
    case Any => true
    case Personal => e.organization.None?
    case Organization(id) => e.organization == Some(id)
  }

  /** A private resource shows nothing to a user outside its organization. */
  predicate Admitted(ms: seq<Membership>, r: Resource, tenant: Tenant) {
    tenant.Any? && !r.public ==> exists m :: m in ms && Counts(m, r, tenant)
  }

  predicate Sourced(w: Roles, ms: seq<Membership>, es: seq<Entitlement>, r: Resource, tenant: Tenant, s: Scope) {
    || DeclaredAs(r, s, Automatic)
    || (exists e :: e in es && Matches(e, tenant) && e.scope == s)
    || (exists m :: m in ms && Counts(m, r, tenant) && Yields(w, m, r, s))
  }

  predicate Effective(w: Roles, ms: seq<Membership>, es: seq<Entitlement>, r: Resource, tenant: Tenant, s: Scope) {
    && IsDeclared(r, s) && Admitted(ms, r, tenant)
    && Sourced(w, ms, es, r, tenant, s)
  }

  // ----------------------------------------------------------------- sets in insertion order

  function Add(xs: seq<Scope>, s: Scope): (r: seq<Scope>)
    requires Distinct(xs)
    ensures Distinct(r) && forall x :: x in r <==> x in xs || x == s
  {
    if s in xs then xs else xs + [s]
  }

  function Filter(xs: seq<Scope>, keep: Scope -> bool): (r: seq<Scope>)
    ensures forall x :: x in r <==> x in xs && keep(x)
    ensures Distinct(xs) ==> Distinct(r)
  {
    if xs == [] then []
    else
      assert Distinct(xs) ==> Distinct(xs[1..]) && xs[0] !in xs[1..];
      (if keep(xs[0]) then [xs[0]] else []) + Filter(xs[1..], keep)
  }

  lemma {:induction false} DistinctIff(xs: seq<Scope>)
    ensures Distinct(xs) <==> forall x :: x in xs ==> multiset(xs)[x] == 1
  {
    if xs != [] {
      var rest := xs[1..];
      DistinctIff(rest);
      assert xs == [xs[0]] + rest;
      assert multiset(xs) == multiset{xs[0]} + multiset(rest);
      assert Distinct(xs) <==> Distinct(rest) && xs[0] !in rest;
      if Distinct(rest) && xs[0] !in rest {
        forall x | x in xs ensures multiset(xs)[x] == 1 {}
      }
      if forall x :: x in xs ==> multiset(xs)[x] == 1 {
        assert multiset(xs)[xs[0]] == 1;
        forall x | x in rest ensures multiset(rest)[x] == 1 { assert multiset(xs)[x] == 1; }
      }
    }
  }

  lemma SortedSet(xs: seq<Scope>)
    requires Distinct(xs)
    ensures LexSorted(SortTexts(xs)) && Distinct(SortTexts(xs))
    ensures forall x :: x in SortTexts(xs) <==> x in xs
  {
    SortTextsSorted(xs);
    DistinctIff(xs);
    DistinctIff(SortTexts(xs));
    assert forall x :: x in SortTexts(xs) <==> x in multiset(xs);
  }

  // ------------------------------------------------------------------------ the loops

  method AddEach(xs: seq<Scope>, more: seq<Scope>) returns (r: seq<Scope>)
    requires Distinct(xs)
    ensures Distinct(r) && forall s :: s in r <==> s in xs || s in more
  {
    r := xs;
    for k := 0 to |more|
      invariant Distinct(r) && forall s :: s in r <==> s in xs || s in more[..k]
    {
      r := Add(r, more[k]);
      assert more[..k + 1] == more[..k] + [more[k]];
    }
    assert more[..|more|] == more;
  }

  /** The scopes among the items that are for the resource. */
  function ScopesFor(items: seq<(Id, Scope)>, id: Id): (r: seq<Scope>)
    ensures forall s :: s in r <==> (id, s) in items
  {
    if items == [] then []
    else
      assert forall i :: i in items <==> i == items[0] || i in items[1..];
      (if items[0].0 == id then [items[0].1] else []) + ScopesFor(items[1..], id)
  }

  function ScopesOfMode(registry: seq<Declared>, mode: GrantMode): (r: seq<Scope>)
    ensures forall s :: s in r <==> Declared(s, mode) in registry
  {
    if registry == [] then []
    else
      assert forall d :: d in registry <==> d == registry[0] || d in registry[1..];
      (if registry[0].mode == mode then [registry[0].value] else []) + ScopesOfMode(registry[1..], mode)
  }

  /** The two loops over the roles: the predefined scopes, then the organization's own. */
  method CollectRoleScopes(w: Roles, m: Membership, r: Resource) returns (scopes: seq<Scope>)
    ensures Distinct(scopes) && forall s :: s in scopes <==> RolesGrant(w, m, r, s)
  {
    scopes := [];
    if r.realmroot {
      for k := 0 to |m.roles|
        invariant Distinct(scopes)
        invariant forall s :: s in scopes <==>
                    exists j :: 0 <= j < k && m.roles[j] in w.predefined && s in w.predefined[m.roles[j]]
      {
        if m.roles[k] in w.predefined { scopes := AddEach(scopes, w.predefined[m.roles[k]]); }
      }
    }
    ghost var before := scopes;
    for k := 0 to |m.roles|
      invariant Distinct(scopes)
      invariant forall s :: s in scopes <==>
                  s in before || exists j :: 0 <= j < k && (m.organization, m.roles[j]) in w.dynamic
                                              && (r.id, s) in w.dynamic[(m.organization, m.roles[j])]
    {
      var key := (m.organization, m.roles[k]);
      if key in w.dynamic { scopes := AddEach(scopes, ScopesFor(w.dynamic[key], r.id)); }
    }
    forall s ensures s in scopes <==> RolesGrant(w, m, r, s) {
      if s in scopes {
        if s in before {
          var j :| 0 <= j < |m.roles| && m.roles[j] in w.predefined && s in w.predefined[m.roles[j]];
          assert m.roles[j] in m.roles && RoleGrants(w, m.organization, m.roles[j], r, s);
        } else {
          var j :| 0 <= j < |m.roles| && (m.organization, m.roles[j]) in w.dynamic
                   && (r.id, s) in w.dynamic[(m.organization, m.roles[j])];
          assert m.roles[j] in m.roles && RoleGrants(w, m.organization, m.roles[j], r, s);
        }
      }
      if RolesGrant(w, m, r, s) {
        var role :| role in m.roles && RoleGrants(w, m.organization, role, r, s);
        var j :| 0 <= j < |m.roles| && m.roles[j] == role;
      }
    }
  }

  /** resolveOrganizationMembershipScopes: exactly what the membership yields, sorted, each once. */
  method ResolveMembershipScopes(w: Roles, m: Membership, r: Resource) returns (scopes: seq<Scope>)
    ensures LexSorted(scopes) && Distinct(scopes)
    ensures forall s :: s in scopes <==> Yields(w, m, r, s)
  {
    scopes := CollectRoleScopes(w, m, r);
    if r.realmroot {
      var kept := Filter(scopes, s => s in w.realm);
      SortedSet(kept);
      return SortTexts(kept);
    }
    if scopes == [] && OWNER !in m.roles { return []; }
    if r.owner == Some(m.organization) && OWNER in m.roles { scopes := AddEach(scopes, ScopesOfMode(r.registry, Assigned)); }
    if scopes == [] || !Visible(r, m.organization) { return []; }
    var kept := Filter(scopes, s => Declared(s, Assigned) in r.registry);
    SortedSet(kept);
    scopes := SortTexts(kept);
  }

  method AddEntitled(xs: seq<Scope>, es: seq<Entitlement>, tenant: Tenant) returns (scopes: seq<Scope>)
    requires Distinct(xs)
    ensures Distinct(scopes)
    ensures forall s :: s in scopes <==> s in xs || exists e :: e in es && Matches(e, tenant) && e.scope == s
  {
    scopes := xs;
    for k := 0 to |es|
      invariant Distinct(scopes)
      invariant forall s :: s in scopes <==> s in xs || exists e :: e in es[..k] && Matches(e, tenant) && e.scope == s
    {
      assert es[..k + 1] == es[..k] + [es[k]];
      if Matches(es[k], tenant) { scopes := Add(scopes, es[k].scope); }
    }
    assert es[..|es|] == es;
  }

  method AddYielded(xs: seq<Scope>, w: Roles, ms: seq<Membership>, r: Resource) returns (scopes: seq<Scope>)
    requires Distinct(xs)
    ensures Distinct(scopes)
    ensures forall s :: s in scopes <==> s in xs || exists m :: m in ms && Yields(w, m, r, s)
  {
    scopes := xs;
    for k := 0 to |ms|
      invariant Distinct(scopes)
      invariant forall s :: s in scopes <==> s in xs || exists j :: 0 <= j < k && Yields(w, ms[j], r, s)
    {
      var more := ResolveMembershipScopes(w, ms[k], r);
      scopes := AddEach(scopes, more);
    }
    forall s ensures s in scopes <==> s in xs || exists m :: m in ms && Yields(w, m, r, s) {
      if m :| m in ms && Yields(w, m, r, s) { var j :| 0 <= j < |ms| && ms[j] == m; }
      if s in scopes && s !in xs { var j :| 0 <= j < |ms| && Yields(w, ms[j], r, s); assert ms[j] in ms; }
    }
  }

  /** userEffectiveResourceScopes: exactly the effective scopes, sorted, each once. */
  method UserEffectiveResourceScopes(
      w: Roles, ms: seq<Membership>, es: seq<Entitlement>, r: Resource, tenant: Tenant) returns (scopes: seq<Scope>)
    ensures LexSorted(scopes) && Distinct(scopes)
    ensures forall s :: s in scopes <==> Effective(w, ms, es, r, tenant, s)
  {
    var visible := VisibleMemberships(ms, r, tenant);
    if tenant.Any? && !r.public && visible == [] { return []; }
    assert Admitted(ms, r, tenant) by { if visible != [] { assert visible[0] in visible; } }
    var automatic := AddEach([], ScopesOfMode(r.registry, Automatic));
    var direct := AddEntitled(automatic, es, tenant);
    var all := AddYielded(direct, w, visible, r);
    assert forall s :: s in all <==> Sourced(w, ms, es, r, tenant, s);
    var kept := Filter(all, s => Declared(s, Automatic) in r.registry || Declared(s, Assigned) in r.registry);
    SortedSet(kept);
    scopes := SortTexts(kept);
  }

  function VisibleMemberships(ms: seq<Membership>, r: Resource, tenant: Tenant): (v: seq<Membership>)
    ensures forall m :: m in v <==> m in ms && Counts(m, r, tenant)
  {
    if ms == [] then []
    else
      assert forall m :: m in ms <==> m == ms[0] || m in ms[1..];
      (if Counts(ms[0], r, tenant) then [ms[0]] else []) + VisibleMemberships(ms[1..], r, tenant)
  }

  // ------------------------------------------------------------------------ token scopes

  datatype Client = Client(oidcScopes: seq<Scope>, allowed: seq<Scope>, consentRequired: bool)

  datatype Outcome = Scopes(scopes: seq<Scope>) | InvalidScope

  /** The scopes of a user's access token for one visible resource: the requested OpenID Connect scopes,
      then the requested resource scopes that survive. `oidc` are the scopes users configure, `code` is
      whether the grant is authorization_code or refresh_token. */
  function TokenScopes(
      requested: seq<Scope>, oidc: set<Scope>, client: Client, r: Resource, effective: seq<Scope>, consented: seq<Scope>,
      code: bool): Outcome
  {
    var requestedOidc := Filter(requested, s => s in oidc);
    var requestedResource := Filter(requested, s => s !in oidc);
    var target := Filter(requestedResource, s => s in client.allowed && IsDeclared(r, s));
    if exists s :: s in requestedOidc && s !in client.oidcScopes then InvalidScope
    else if !code && |target| != |requestedResource| then InvalidScope
    else
      Scopes(requestedOidc + Filter(target, s => s in effective && (client.consentRequired ==> s in consented)))
  }

  lemma {:induction false} FilterIsShorter(xs: seq<Scope>, keep: Scope -> bool)
    ensures |Filter(xs, keep)| <= |xs|
    ensures |Filter(xs, keep)| == |xs| <==> forall x :: x in xs ==> keep(x)
  {
    if xs != [] {
      FilterIsShorter(xs[1..], keep);
      assert forall x :: x in xs <==> x == xs[0] || x in xs[1..];
    }
  }

  /** A request fails exactly when an OpenID Connect scope is not the client's, or, for a grant without a
      code, when a resource scope is not. */
  lemma TokenScopesFailIff(
      requested: seq<Scope>, oidc: set<Scope>, client: Client, r: Resource, effective: seq<Scope>, consented: seq<Scope>,
      code: bool)
    ensures TokenScopes(requested, oidc, client, r, effective, consented, code).InvalidScope?
       <==> ((exists x :: x in requested && x in oidc && x !in client.oidcScopes)
             || (!code && exists x :: x in requested && x !in oidc && !(x in client.allowed && IsDeclared(r, x))))
  {
    var requestedResource := Filter(requested, x => x !in oidc);
    FilterIsShorter(requestedResource, x => x in client.allowed && IsDeclared(r, x));
    var requestedOidc := Filter(requested, x => x in oidc);
    if x :| x in requested && x in oidc && x !in client.oidcScopes { assert x in requestedOidc; }
  }

  /** What a token holds, exactly: a requested scope the client may have, and for a resource scope also
      declared, effective for the user, and consented to where the client needs consent. */
  lemma TokenScopesExactly(
      requested: seq<Scope>, oidc: set<Scope>, client: Client, r: Resource, effective: seq<Scope>, consented: seq<Scope>,
      code: bool, s: Scope)
    requires TokenScopes(requested, oidc, client, r, effective, consented, code).Scopes?
    ensures s in TokenScopes(requested, oidc, client, r, effective, consented, code).scopes
       <==> (&& s in requested
             && (if s in oidc then s in client.oidcScopes
                 else s in client.allowed && IsDeclared(r, s) && s in effective
                      && (client.consentRequired ==> s in consented)))
  {
    var requestedOidc := Filter(requested, x => x in oidc);
    var target := Filter(Filter(requested, x => x !in oidc), x => x in client.allowed && IsDeclared(r, x));
    var kept := Filter(target, x => x in effective && (client.consentRequired ==> x in consented));
    assert TokenScopes(requested, oidc, client, r, effective, consented, code).scopes == requestedOidc + kept;
    assert s in requestedOidc + kept <==> s in requestedOidc || s in kept;
    assert s in requestedOidc ==> s in client.oidcScopes;
  }

  /** What filterOAuthAccessTokenScopes comes to: the scopes, or one of its refusals. */
  datatype Filtered = Granted(scopes: seq<Scope>) | ScopeRefused | TargetRefused | AccessDenied

  /** The resource named in the request, if one is; `found` is None when there is no such resource or it has no
      scope registry. */
  datatype Target = NoTarget | Target(found: Option<Resource>)

  /** The organization chosen for the request: None when the choice is refused, Some(None) for the user's own. */
  type Choice = Option<Option<Id>>

  function TenantOf(organization: Option<Id>): Tenant {
    if organization.Some? then Organization(organization.value) else Personal
  }

  predicate VisibleTo(r: Resource, organization: Option<Id>) {
    r.public || organization == r.owner
  }

  predicate ForeignOidc(requested: seq<Scope>, oidc: set<Scope>, client: Client) {
    exists x :: x in requested && x in oidc && x !in client.oidcScopes
  }

  predicate ForeignResource(requested: seq<Scope>, oidc: set<Scope>, client: Client, r: Resource) {
    exists x :: x in requested && x !in oidc && !(x in client.allowed && IsDeclared(r, x))
  }

  predicate Usable(t: Target) {
    t.Target? && t.found.Some? && t.found.value.enabled
  }

  /** filterOAuthAccessTokenScopes for a user: which requests are refused and how, and what a token holds, from
      memberships, entitlements and declarations. `client` is None when the application is missing or disabled,
      `mayUse` whether the user has access to it; AccessDenied is called invalid_grant for a refresh. */
  method FilterOAuthAccessTokenScopes(
      w: Roles, ms: seq<Membership>, es: seq<Entitlement>, target: Target, choice: Choice,
      requested: seq<Scope>, oidc: set<Scope>, client: Option<Client>, mayUse: bool, consented: seq<Scope>, code: bool)
      returns (o: Filtered)
    ensures client.None? ==> o == Granted([])
    ensures client.Some? ==>
      && (o.AccessDenied? <==>
            !mayUse || (!ForeignOidc(requested, oidc, client.value) && Usable(target) && choice.None?))
      && (o.TargetRefused? <==>
            && mayUse && !ForeignOidc(requested, oidc, client.value) && target.Target?
            && (!Usable(target) || (choice.Some? && !VisibleTo(target.found.value, choice.value))))
      && (o.ScopeRefused? <==>
            && mayUse
            && (|| ForeignOidc(requested, oidc, client.value)
                || (target.NoTarget? && exists x :: x in requested && x !in oidc)
                || (Usable(target) && choice.Some? && VisibleTo(target.found.value, choice.value)
                    && !code && ForeignResource(requested, oidc, client.value, target.found.value))))
      && (o.Granted? ==> (target.Target? ==> Usable(target) && choice.Some?) && forall s :: s in o.scopes <==>
            (&& s in requested
             && (if s in oidc then s in client.value.oidcScopes
                 else
                   && target.Target? && s in client.value.allowed
                   && Effective(w, ms, es, target.found.value, TenantOf(choice.value), s)
                   && (client.value.consentRequired ==> s in consented))))
  {
    if client.None? { return Granted([]); }
    if !mayUse { return AccessDenied; }
    var c := client.value;
    var requestedOidc := Filter(requested, s => s in oidc);
    assert forall s :: s in requestedOidc <==> s in requested && s in oidc;
    if exists s :: s in requestedOidc && s !in c.oidcScopes { return ScopeRefused; }
    if target.NoTarget? {
      if exists s :: s in requested && s !in oidc { return ScopeRefused; }
      return Granted(requestedOidc);
    }
    if target.found.None? || !target.found.value.enabled { return TargetRefused; }
    if choice.None? { return AccessDenied; }
    var r := target.found.value;
    if !VisibleTo(r, choice.value) { return TargetRefused; }
    var effective := UserEffectiveResourceScopes(w, ms, es, r, TenantOf(choice.value));
    var outcome := TokenScopes(requested, oidc, c, r, effective, consented, code);
    TokenScopesFailIff(requested, oidc, c, r, effective, consented, code);
    if outcome.InvalidScope? { return ScopeRefused; }
    forall s ensures s in outcome.scopes <==>
      (&& s in requested
       && (if s in oidc then s in c.oidcScopes
           else s in c.allowed && Effective(w, ms, es, r, TenantOf(choice.value), s) && (c.consentRequired ==> s in consented)))
    {
      TokenScopesExactly(requested, oidc, c, r, effective, consented, code, s);
    }
    return Granted(outcome.scopes);
  }
}
