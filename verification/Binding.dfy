// The decision check on one lease, as the code performs it.
module Binding {
  import opened Commons
  import opened Text
  import opened Records
  import opened Grammar
  import opened Scopes
  import opened Decisions
  import opened Overlap
  import opened Lifecycle

  // Every identity the merged tables list is a claim, and the other way round.
  lemma RequiredResources(host: Host, r: Record, s: Reservations)
    requires Summarises(host, r, s)
    ensures forall id :: (id in s.repositories.Keys + s.paths.Keys + s.branches.Keys
                                + s.infrastructure.Keys + s.coordination.Keys
                          <==> exists kind, mode :: Claims(host, r, kind, id, mode))
  {
    forall id
      ensures id in s.repositories.Keys + s.paths.Keys + s.branches.Keys + s.infrastructure.Keys + s.coordination.Keys
        <==> exists kind, mode :: Claims(host, r, kind, id, mode)
    {
      assert id in s.repositories <==> Holds(host, r, Repository, id) by {
        assert Agrees(s.repositories, id, Claims(host, r, Repository, id, Read), Claims(host, r, Repository, id, Write));
      }
      assert id in s.paths <==> Holds(host, r, Path, id) by {
        assert Agrees(s.paths, id, Claims(host, r, Path, id, Read), Claims(host, r, Path, id, Write));
      }
      assert id in s.branches <==> Holds(host, r, Branch, id) by {
        assert Agrees(s.branches, id, Claims(host, r, Branch, id, Read), Claims(host, r, Branch, id, Write));
      }
      assert id in s.infrastructure <==> Holds(host, r, Infrastructure, id) by {
        assert Agrees(s.infrastructure, id, Claims(host, r, Infrastructure, id, Read),
                      Claims(host, r, Infrastructure, id, Write));
      }
      assert id in s.coordination <==> Holds(host, r, Coordination, id);
      AnyClaim(host, r, id);
    }
  }

  lemma AnyClaim(host: Host, r: Record, id: string)
    ensures (exists kind, mode :: Claims(host, r, kind, id, mode))
       <==> Holds(host, r, Repository, id) || Holds(host, r, Path, id) || Holds(host, r, Branch, id)
            || Holds(host, r, Infrastructure, id) || Holds(host, r, Coordination, id)
  {
    if exists kind, mode :: Claims(host, r, kind, id, mode) {
      var kind, mode :| Claims(host, r, kind, id, mode);
      assert Holds(host, r, kind, id);
    }
  }

  method CheckScope(host: Host, r: Record, d: Decision) returns (ok: bool)
    ensures ok <==> ScopeBinds(host, r, d)
  {
    if d.scope.None? { return false; }
    var scope := d.scope.value;
    if exists entry <- scope :: entry == "" || Strip(entry) != entry { return false; }
    if exists entry <- scope :: CanonicalEntry(host, entry) != Some(entry) { return false; }
    if !Distinct(scope) { return false; }
    var s := Sets(host, r);
    RequiredResources(host, r, s);
    var required := s.repositories.Keys + s.paths.Keys + s.branches.Keys
      + s.infrastructure.Keys + s.coordination.Keys;
    if exists id <- required :: id !in scope {
      return false;
    }
    return d.digest == Some(Sha256(r));
  }

  method CheckBinds(store: Store, host: Host, r: Record, at: Location, action: string) returns (ok: bool)
    requires r.leaseId.Some?
    ensures ok <==> Binds(store, host, r, at, action)
  {
    var problems := VerifyDecision(store, at, r.runId, action, r.leaseId, Some(r.generation), r.schema == V2);
    if problems != [] { return false; }
    if r.schema != V2 { return true; }
    var bound := CheckScope(host, r, store.decisions[at]);
    return bound && store.decisions[at].sequence == Some(r.generation);
  }

  method CheckActive(store: Store, host: Host, r: Record) returns (ok: bool)
    requires r.leaseId.Some? && r.schema == V2
    ensures ok <==> exists at :: BoundActive(store, host, r, at)
  {
    if r.decisionRef.None? || !PortableReference(r.decisionRef.value)
       || r.decisionRef.value !in store.references
    {
      return false;
    }
    var at := store.references[r.decisionRef.value];
    ok := CheckBinds(store, host, r, at, ActiveAction(r.generation));
    assert forall l :: RefersLoosely(store, r.decisionRef, l) ==> l == at;
    assert ok ==> BoundActive(store, host, r, at);
  }

  // The decision a record names, when that decision binds it to the action.
  method CheckBound(store: Store, host: Host, r: Record, action: string) returns (ok: bool, at: Location)
    requires r.leaseId.Some?
    ensures ok <==> exists l :: Bound(store, host, r, l, action)
    ensures ok ==> Bound(store, host, r, at, action)
    ensures forall l :: Bound(store, host, r, l, action) ==> l == at
  {
    hide Binds, PortableReference;
    at := "";
    if r.decisionRef.None? || (r.schema == V2 && !PortableReference(r.decisionRef.value))
       || r.decisionRef.value !in store.references
    {
      return false, at;
    }
    at := store.references[r.decisionRef.value];
    ok := CheckBinds(store, host, r, at, action);
    assert ok ==> Bound(store, host, r, at, action);
  }

  // A replacement's decision must directly follow the current one.
  method CheckReplacement(store: Store, host: Host, candidate: Record, current: Record) returns (ok: bool)
    requires candidate.leaseId.Some? && current.leaseId.Some? && candidate.schema == V2 && current.schema == V2
    ensures ok <==> exists at, previous :: Succeeds(store, host, candidate, current, at, previous)
  {
    hide Binds, PortableReference;
    var bound, at := CheckBound(store, host, candidate, "lease:expand");
    if !bound { return false; }
    BoundIsLoaded(store, host, candidate, at, "lease:expand");
    var currentBound, previous := CheckBound(store, host, current, ActiveAction(current.generation));
    if !currentBound { return false; }
    ok := Predecessor(store, at, true) == Some(previous);
    assert ok ==> Succeeds(store, host, candidate, current, at, previous);
  }

  lemma BoundIsLoaded(store: Store, host: Host, r: Record, at: Location, action: string)
    requires Bound(store, host, r, at, action)
    ensures at in store.decisions
  {
  }

  // Terminal evidence: outcome, release decision, and the decision of the
  // ACTIVE record the terminal one must have closed.
  method CheckTerminalRelease(store: Store, host: Host, r: Record, now: int) returns (ok: bool)
    ensures ok <==> TerminalRelease(store, host, r, now)
  {
    hide Binds, PortableReference, OutcomeBound;
    if r.schema != V2 || r.released.None? || r.released.value > now || !OutcomeBound(store, r) { return false; }
    if r.leaseId.None? {
      NoEvidenceWithoutId(store, host, r);
      return false;
    }
    if r.releaseDecisionRef.None? || !PortableReference(r.releaseDecisionRef.value)
       || r.releaseDecisionRef.value !in store.references
       || r.decisionRef.None? || !PortableReference(r.decisionRef.value) || r.decisionRef.value !in store.references
    {
      return false;
    }
    var release, active := store.references[r.releaseDecisionRef.value], store.references[r.decisionRef.value];
    ok := CheckEvidence(store, host, r, release, active);
    assert ok ==> TerminalEvidence(store, host, r, release, active);
  }

  lemma NoEvidenceWithoutId(store: Store, host: Host, r: Record)
    requires r.leaseId.None?
    ensures forall release, active :: !TerminalEvidence(store, host, r, release, active)
  {
  }

  method CheckEvidence(store: Store, host: Host, r: Record, release: Location, active: Location) returns (ok: bool)
    requires r.leaseId.Some? && Refers(store, r.releaseDecisionRef, release) && Refers(store, r.decisionRef, active)
    ensures ok <==> TerminalEvidence(store, host, r, release, active)
  {
    ok := CheckBinds(store, host, r, release, ReleaseAction(r.releaseAuthority));
    if !ok { return; }
    assert release in store.decisions;
    if store.decisions[release].actions != [ReleaseAction(r.releaseAuthority)]
       || Predecessor(store, release, true) != Some(active)
    {
      return false;
    }
    ok := CheckBinds(store, host, RebuiltActive(r), active, ActiveAction(r.generation - 1));
  }

  // The authority a release must claim at this instant.
  method CheckReleaseAuthority(store: Store, host: Host, candidate: Record, current: Record, now: int) returns (ok: bool)
    ensures ok <==> ReleaseAuthorised(store, host, candidate, current, now)
  {
    if candidate.released.None? || candidate.released.value > now || current.expires.None? { return false; }
    var required := if now > current.expires.value then StaleRecovery else Normal;
    if candidate.releaseAuthority != Some(required) { return false; }
    ok := CheckTerminalRelease(store, host, candidate, now);
  }

  method CheckTerminal(store: Store, host: Host, r: Record, now: int) returns (ok: bool)
    ensures ok <==> TerminalValid(store, host, r, now)
  {
    if r.schema == V1 { return LegacyTerminal(r); }
    if r.schema != V2 || !ValidLease(host, r, true, false) || r.state != Released { return false; }
    ok := CheckTerminalRelease(store, host, r, now);
  }
}
