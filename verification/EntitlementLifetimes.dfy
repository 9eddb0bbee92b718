/** How long an entitlement lasts, and how an approval merges with an entitlement that is
    already active (server/usecases/external-resources.ts, server/adapters/repos/authorization.ts). */
module EntitlementLifetimes {
  import opened Options

  /** Milliseconds since the epoch. */
  type Time = int

  datatype Mode = Persistent | UntilExpiry | Once

  /** The two columns of a stored entitlement, and the two inputs of an approval. */
  datatype Lifetime = Lifetime(mode: Mode, expiresAt: Option<Time>)

  /** The lifetime check constraint of the table. */
  predicate Valid(l: Lifetime) {
    l.mode.UntilExpiry? <==> l.expiresAt.Some?
  }

  /** once < until(t) < persistent. */
  predicate NoLonger(a: Lifetime, b: Lifetime) {
    || b.mode.Persistent?
    || a.mode.Once?
    || (a.expiresAt.Some? && b.expiresAt.Some? && a.expiresAt.value <= b.expiresAt.value)
  }

  /** The lifetime decideAgentAccessRequest writes over an active entitlement. */
  function Merged(current: Lifetime, requested: Lifetime): Lifetime {
    var shouldPersist := requested.mode.Persistent? && !current.mode.Persistent?;
    var shouldExtend :=
      && requested.mode.UntilExpiry? && requested.expiresAt.Some?
      && !current.mode.Persistent?
      && (current.expiresAt.None? || current.expiresAt.value < requested.expiresAt.value);
    Lifetime(if shouldPersist then Persistent else if shouldExtend then UntilExpiry else current.mode,
             if shouldPersist then None else if shouldExtend then requested.expiresAt else current.expiresAt)
  }

  /** strongerLifetime: None when the stored lifetime is kept. */
  function StrongerLifetime(current: Lifetime, requested: Lifetime): Option<Lifetime>
    requires Valid(current) && Valid(requested)
  {
    if current.mode.Persistent? || requested.mode.Once? then None
    else if requested.mode.Persistent? then Some(Lifetime(Persistent, None))
    else if current.mode.Once? then Some(Lifetime(UntilExpiry, requested.expiresAt))
    else if requested.expiresAt.value > current.expiresAt.value then Some(Lifetime(UntilExpiry, requested.expiresAt))
    else None
  }

  lemma NoLongerIsOrder(a: Lifetime, b: Lifetime, c: Lifetime)
    requires Valid(a) && Valid(b) && Valid(c)
    ensures NoLonger(a, b) || NoLonger(b, a)
    ensures NoLonger(a, b) && NoLonger(b, c) ==> NoLonger(a, c)
    ensures NoLonger(a, b) && NoLonger(b, a) ==> a == b
  {
  }

  /** Merging is the join of the order. */
  lemma MergedIsJoin(current: Lifetime, requested: Lifetime, bound: Lifetime)
    requires Valid(current) && Valid(requested) && Valid(bound)
    ensures Valid(Merged(current, requested))
    ensures NoLonger(current, Merged(current, requested)) && NoLonger(requested, Merged(current, requested))
    ensures NoLonger(Merged(current, requested), bound) <==> NoLonger(current, bound) && NoLonger(requested, bound)
  {
  }

  /** Both places that merge a grant into an active entitlement compute the same lifetime. */
  lemma BothMergesAgree(current: Lifetime, requested: Lifetime)
    requires Valid(current) && Valid(requested)
    ensures Merged(current, requested)
         == match StrongerLifetime(current, requested) case None => current case Some(l) => l
  {
  }

  /** The lifetime after a sequence of approvals. */
  function MergedAll(current: Lifetime, approvals: seq<Lifetime>): Lifetime
    decreases |approvals|
  {
    if approvals == [] then current else MergedAll(Merged(current, approvals[0]), approvals[1..])
  }

  lemma {:induction false} MergedAllIsJoin(current: Lifetime, approvals: seq<Lifetime>, bound: Lifetime)
    requires Valid(current) && Valid(bound) && forall a :: a in approvals ==> Valid(a)
    ensures Valid(MergedAll(current, approvals))
    ensures NoLonger(MergedAll(current, approvals), bound)
       <==> NoLonger(current, bound) && forall a :: a in approvals ==> NoLonger(a, bound)
    decreases |approvals|
  {
    if approvals != [] {
      MergedIsJoin(current, approvals[0], bound);
      MergedAllIsJoin(Merged(current, approvals[0]), approvals[1..], bound);
      assert forall a :: a in approvals <==> a == approvals[0] || a in approvals[1..];
    }
  }

  /** The order of the approvals does not matter, nor does repeating one. */
  lemma ApprovalOrderIsIrrelevant(current: Lifetime, xs: seq<Lifetime>, ys: seq<Lifetime>)
    requires Valid(current) && forall a :: a in xs ==> Valid(a)
    requires forall a :: a in xs <==> a in ys
    ensures MergedAll(current, xs) == MergedAll(current, ys)
  {
    var m, n := MergedAll(current, xs), MergedAll(current, ys);
    MergedAllIsJoin(current, xs, current);
    MergedAllIsJoin(current, ys, current);
    MergedAllIsJoin(current, xs, n);
    MergedAllIsJoin(current, ys, n);
    MergedAllIsJoin(current, xs, m);
    MergedAllIsJoin(current, ys, m);
    NoLongerIsOrder(m, n, m);
    NoLongerIsOrder(n, m, n);
  }

  /** An approval that was computed from the lifetime it read, but is written over a different one,
      keeps the written-over lifetime exactly when that is no longer than what was computed. */
  lemma StaleMergeKeepsIff(read: Lifetime, stored: Lifetime, requested: Lifetime)
    requires Valid(read) && Valid(stored) && Valid(requested)
    ensures NoLonger(stored, Merged(read, requested))
       <==> NoLonger(stored, read) || NoLonger(stored, requested)
  {
  }
}
