// Lease validity, the decisions that bind a lease, and terminal release.
module Lifecycle {
  import opened Commons
  import opened Text
  import opened Records
  import opened Grammar
  import opened Repositories
  import opened Scopes
  import opened Decisions
  import opened Overlap

  // ---- Document shape ----

  predicate Present(s: Option<string>) {
    s.Some? && s.value != ""
  }

  // owner/name without blanks or further slashes.
  predicate StructuralName(s: string) {
    exists k :: 0 < k < |s| - 1 && s[k] == '/'
      && forall i :: 0 <= i < |s| && i != k ==> s[i] != '/' && !IsSpace(s[i])
  }

  predicate Sha1Text(s: string) {
    |s| == 40 && forall c <- s :: '0' <= c <= '9' || 'a' <= c <= 'f'
  }

  // What JSON Schema validation establishes of a document, as far as the
  // modelled checks depend on it.
  predicate SchemaValid(r: Record) {
    && r.schema != UnknownSchema
    && r.leaseId.Some? && SafeId(Chomp(r.leaseId.value)) && SafeId(Chomp(r.runId))
    && r.state != OtherState && r.generation >= 1 && r.created.Some? && r.owner != ""
    && r.coordination.Some? && StructuralName(Chomp(r.coordination.value))
    && r.repositories != []
    && (forall item <- r.repositories ::
          && item.Item? && item.mode.Some? && StructuralName(Chomp(item.repository))
          && (item.exactSha.Some? ==> Sha1Text(Chomp(item.exactSha.value))))
    && Distinct(r.localScopes) && Distinct(r.infrastructure)
    && (r.schema == V1 ==> LegacyFieldsOnly(r))
    && (r.schema == V2 ==> V2Fields(r))
  }

  predicate V2Fields(r: Record)
    requires r.coordination.Some?
  {
    && r.generation <= MAX_SAFE_INTEGER && r.heartbeat.Some? && r.expires.Some?
    && V2Name(Chomp(r.coordination.value))
    && forall item <- r.repositories :: item.Item? ==>
         && V2Name(Chomp(item.repository)) && (item.branchRef.Some? ==> BranchRef(Chomp(item.branchRef.value)))
         && (item.mode == Some(Write) ==>
               item.canonicalPath.Some? && item.worktreeRoot.Some? && item.branchRef.Some? && item.exactSha.Some?)
  }

  // The v1 document has none of the v2 fields.
  predicate LegacyFieldsOnly(r: Record) {
    && r.heartbeat.None? && r.expires.None? && r.releaseDecisionRef.None?
    && r.releaseAuthority.None? && r.outcomeSha.None?
    && forall item <- r.repositories :: item.Item? ==> item.branchRef.None?
  }

  function WriterItems(items: seq<Item>): seq<Item> {
    if items == [] then []
    else (if items[0].Item? && items[0].mode == Some(Write) then [items[0]] else []) + WriterItems(items[1..])
  }

  lemma {:induction false} WriterItemsAreItems(items: seq<Item>)
    ensures forall item <- WriterItems(items) :: item.Item?
  {
    if items != [] { WriterItemsAreItems(items[1..]); }
  }

  function Writers(r: Record): (names: seq<string>) {
    var items := WriterItems(r.repositories);
    WriterItemsAreItems(r.repositories);
    seq(|items|, i requires 0 <= i < |items| => assert items[i] in items; items[i].repository)
  }

  predicate OptionalV2Path(path: Option<string>) {
    path.Some? ==> V2AbsoluteScope(path.value)
  }

  // ---- The v2 lifecycle ----

  predicate TerminalFieldsEmpty(r: Record) {
    && r.releaseDecisionRef.None? && r.releaseAuthority.None? && r.released.None?
    && r.outcomeRef.None? && r.outcomeSha.None?
  }

  predicate V2Lifecycle(r: Record) {
    && r.generation >= 1 && IsSafeInteger(r.generation)
    && r.created.Some? && r.heartbeat.Some? && r.expires.Some?
    && r.created.value <= r.heartbeat.value < r.expires.value
    && r.state != OtherState && r.repositories != []
    && (forall item <- r.repositories ::
          item.Item? && OptionalV2Path(item.canonicalPath) && OptionalV2Path(item.worktreeRoot))
    && |Writers(r)| <= 1
    && (forall scope <- r.localScopes :: V2AbsoluteScope(scope))
    && (forall scope <- r.infrastructure :: scope != "" && Strip(scope) == scope)
    && (r.state == Active ==> ActiveLifecycle(r))
    && (r.state == Released ==> ReleasedLifecycle(r))
  }

  predicate ActiveLifecycle(r: Record) {
    && TerminalFieldsEmpty(r) && Present(r.decisionRef)
    && if r.activeWriter.None? then Writers(r) == []
       else Writers(r) == [r.activeWriter.value]
  }

  predicate ReleasedLifecycle(r: Record)
    requires r.heartbeat.Some? && r.expires.Some?
  {
    && r.generation >= 2 && r.released.Some? && Present(r.releaseDecisionRef)
    && r.releaseAuthority.Some? && Present(r.outcomeRef) && Present(r.outcomeSha)
    && r.released.value >= r.heartbeat.value
    && (r.releaseAuthority == Some(Normal) ==> r.released.value <= r.expires.value)
    && (r.releaseAuthority == Some(StaleRecovery) ==> r.released.value > r.expires.value)
    && r.activeWriter.None?
  }

  // ---- Lease validity ----

  function Canonicalizer(r: Record): string -> string {
    if r.schema == V2 then CanonicalRepoV2 else CanonicalRepo
  }

  function Identities(r: Record): seq<string>
    requires forall item <- r.repositories :: item.Item?
  {
    seq(|r.repositories|, i requires 0 <= i < |r.repositories| =>
      assert r.repositories[i] in r.repositories; Canonicalizer(r)(r.repositories[i].repository))
  }

  function WriterIdentities(r: Record): seq<string> {
    seq(|Writers(r)|, i requires 0 <= i < |Writers(r)| => Canonicalizer(r)(Writers(r)[i]))
  }

  predicate PresentText(s: Option<string>) {
    s.Some? && Strip(s.value) != ""
  }

  // The coordination repository as the sole, fully bound writer.
  predicate CoordinationSelfWrite(r: Record, coordination: string) {
    && WriterIdentities(r) == [coordination]
    && r.activeWriter.Some? && Canonicalizer(r)(r.activeWriter.value) == coordination
    && (forall item <- r.repositories :: item.Item? ==>
          (Canonicalizer(r)(item.repository) == coordination ==>
             item.mode == Some(Write) && PresentText(item.canonicalPath)
             && PresentText(item.worktreeRoot) && PresentText(item.exactSha))
          && (Canonicalizer(r)(item.repository) != coordination ==> item.mode == Some(Read)))
    && r.state == Active
  }

  predicate NativePaths(r: Record, posix: bool) {
    && (forall item <- r.repositories :: item.Item? ==>
          (item.canonicalPath.Some? ==> NativeAbsoluteScope(item.canonicalPath.value, posix))
          && (item.worktreeRoot.Some? ==> NativeAbsoluteScope(item.worktreeRoot.value, posix)))
    && forall scope <- r.localScopes :: NativeAbsoluteScope(scope, posix)
  }

  predicate ValidLease(host: Host, r: Record, allowSelfWrite: bool, native: bool) {
    && SchemaValid(r)
    && (r.schema == V2 ==> V2Lifecycle(r) && (native ==> NativePaths(r, host.posix)))
    && Distinct(Identities(r))
    && (var coordination := Canonicalizer(r)(r.coordination.value);
        coordination in Identities(r) ==>
          && allowSelfWrite
          && (r.state == Active ==> CoordinationSelfWrite(r, coordination))
          && (r.state != Active ==> WriterIdentities(r) == [coordination]))
    && (r.schema != V2 ==>
          if r.state == Active then
            && Present(r.decisionRef)
            && if r.activeWriter.None? then Writers(r) == []
               else WriterIdentities(r) == [Canonicalizer(r)(r.activeWriter.value)]
          else r.activeWriter.None?)
  }

  predicate IsCoordinationSelfWrite(r: Record) {
    r.coordination.Some?
    && exists i :: 0 <= i < |r.repositories| && r.repositories[i].Item?
         && r.repositories[i].mode == Some(Write)
         && Canonicalizer(r)(r.repositories[i].repository) == Canonicalizer(r)(r.coordination.value)
  }

  // ---- Decision binding ----

  function ActiveAction(generation: int): string {
    if generation == 1 then "lease:acquire" else "lease:expand"
  }

  function ReleaseAction(authority: Option<Authority>): string {
    if authority == Some(StaleRecovery) then "lease:release-stale" else "lease:release"
  }

  // A list of unique canonical entries that names every reserved resource.
  ghost predicate Covers(host: Host, r: Record, scope: seq<string>) {
    && (forall entry <- scope ::
          entry != "" && Strip(entry) == entry && CanonicalEntry(host, entry) == Some(entry))
    && Distinct(scope)
    && forall kind, id, mode :: Claims(host, r, kind, id, mode) ==> id in scope
  }

  ghost predicate ScopeBinds(host: Host, r: Record, d: Decision) {
    d.scope.Some? && Covers(host, r, d.scope.value) && d.digest == Some(Sha256(r))
  }

  // The v2 evidence a decision must carry for one record and one action.
  ghost predicate Binds(store: Store, host: Host, r: Record, at: Location, action: string) {
    && r.leaseId.Some?
    && Accepts(store, at, r.runId, action, r.leaseId, Some(r.generation), r.schema == V2)
    && (r.schema == V2 ==>
          ScopeBinds(host, r, store.decisions[at]) && store.decisions[at].sequence == Some(r.generation))
  }

  // Where a v2 reference of a record leads.
  predicate Refers(store: Store, reference: Option<string>, at: Location) {
    reference.Some? && PortableReference(reference.value)
    && reference.value in store.references && store.references[reference.value] == at
  }

  predicate RefersLoosely(store: Store, reference: Option<string>, at: Location) {
    reference.Some? && reference.value in store.references && store.references[reference.value] == at
  }

  // The decision a record names authorises the action on exactly that record.
  ghost predicate Bound(store: Store, host: Host, r: Record, at: Location, action: string) {
    && RefersLoosely(store, r.decisionRef, at)
    && (r.schema == V2 ==> PortableReference(r.decisionRef.value))
    && Binds(store, host, r, at, action)
  }

  ghost predicate BoundActive(store: Store, host: Host, r: Record, at: Location) {
    Bound(store, host, r, at, ActiveAction(r.generation))
  }

  // The predecessor a decision names directly.
  predicate DirectlyFollows(store: Store, at: Location, previous: Location)
    requires at in store.decisions
  {
    Leads(store, store.decisions[at], true, previous)
  }

  // ---- Acquire and replace ----

  predicate Unexpired(r: Record, now: int) {
    r.schema == V2 ==> r.expires.Some? && now <= r.expires.value
  }

  ghost predicate AcquireValid(store: Store, host: Host, candidate: Record) {
    && ValidLease(host, candidate, false, true)
    && candidate.state == Active && candidate.generation == 1
    && exists at :: Bound(store, host, candidate, at, "lease:acquire")
  }

  predicate SameIdentityFields(a: Record, b: Record) {
    a.schema == b.schema && a.runId == b.runId && a.owner == b.owner
    && a.created == b.created && a.coordination == b.coordination
  }

  // The candidate's decision names the current decision as its predecessor.
  ghost predicate Succeeds(store: Store, host: Host, candidate: Record, current: Record, at: Location, previous: Location) {
    && Bound(store, host, candidate, at, "lease:expand") && BoundActive(store, host, current, previous)
    && DirectlyFollows(store, at, previous)
  }

  ghost predicate ReplaceValid(store: Store, host: Host, candidate: Record, current: Record, expected: int) {
    && ValidLease(host, candidate, true, true)
    && current.leaseId == candidate.leaseId && current.state == Active && current.generation == expected
    && candidate.generation == expected + 1 && candidate.state == Active && Present(candidate.decisionRef)
    && (candidate.schema == V2 ==>
          && SameIdentityFields(candidate, current) && ValidLease(host, current, true, true)
          && exists at, previous :: Succeeds(store, host, candidate, current, at, previous))
    && (candidate.schema != V2 ==>
          && current.schema == candidate.schema
          && exists at :: Bound(store, host, candidate, at, "lease:expand"))
  }

  // ---- Terminal release ----

  predicate OutcomeBound(store: Store, r: Record) {
    && r.outcomeRef.Some? && PortableReference(r.outcomeRef.value)
    && r.outcomeRef.value in store.references
    && store.references[r.outcomeRef.value] in store.outcomes
    && r.outcomeSha == Some(store.outcomes[store.references[r.outcomeRef.value]])
  }

  // The ACTIVE record a terminal record must have closed.
  function RebuiltActive(r: Record): Record {
    r.(state := Active, generation := r.generation - 1,
       activeWriter := if Writers(r) == [] then None else Some(Writers(r)[0]),
       releaseDecisionRef := None, releaseAuthority := None, released := None,
       outcomeRef := None, outcomeSha := None)
  }

  ghost predicate TerminalEvidence(store: Store, host: Host, r: Record, release: Location, active: Location) {
    && Refers(store, r.releaseDecisionRef, release)
    && Binds(store, host, r, release, ReleaseAction(r.releaseAuthority))
    && store.decisions[release].actions == [ReleaseAction(r.releaseAuthority)]
    && Refers(store, r.decisionRef, active) && DirectlyFollows(store, release, active)
    && Binds(store, host, RebuiltActive(r), active, ActiveAction(r.generation - 1))
  }

  ghost predicate TerminalRelease(store: Store, host: Host, r: Record, now: int) {
    && r.schema == V2 && r.released.Some? && r.released.value <= now
    && OutcomeBound(store, r)
    && exists release, active :: TerminalEvidence(store, host, r, release, active)
  }

  predicate SamePreservedFields(a: Record, b: Record) {
    && a.schema == b.schema && a.leaseId == b.leaseId && a.runId == b.runId && a.created == b.created
    && a.heartbeat == b.heartbeat && a.expires == b.expires && a.owner == b.owner
    && a.coordination == b.coordination && a.repositories == b.repositories
    && a.localScopes == b.localScopes && a.infrastructure == b.infrastructure
    && a.decisionRef == b.decisionRef
  }

  predicate ReleaseShape(host: Host, candidate: Record, current: Record, leaseId: string, expected: int) {
    && current.leaseId == Some(leaseId) && current.state == Active && current.generation == expected
    && current.schema == V2 && ValidLease(host, current, true, true)
    && ValidLease(host, candidate, true, true)
    && candidate.leaseId == Some(leaseId) && candidate.state == Released
    && candidate.generation == expected + 1
    && SamePreservedFields(candidate, current)
  }

  ghost predicate ReleaseAuthorised(store: Store, host: Host, candidate: Record, current: Record, now: int) {
    && candidate.released.Some? && candidate.released.value <= now && current.expires.Some?
    && candidate.releaseAuthority == Some(if now > current.expires.value then StaleRecovery else Normal)
    && TerminalRelease(store, host, candidate, now)
  }

  // Rebuilding the active record from an admissible terminal record yields
  // exactly the record that was current.
  lemma ReleaseRebuildsCurrent(host: Host, candidate: Record, current: Record, leaseId: string, expected: int)
    requires ReleaseShape(host, candidate, current, leaseId, expected)
    ensures RebuiltActive(candidate) == current
  {
    ValidActive(host, current);
    RebuildsFrom(candidate, current);
  }

  lemma ValidActive(host: Host, r: Record)
    requires ValidLease(host, r, true, true) && r.schema == V2 && r.state == Active
    ensures ActiveLifecycle(r)
  {
    assert V2Lifecycle(r);
  }

  lemma RebuildsFrom(candidate: Record, current: Record)
    requires SamePreservedFields(candidate, current) && ActiveLifecycle(current)
    requires current.state == Active && candidate.generation == current.generation + 1
    ensures RebuiltActive(candidate) == current
  {
    assert Writers(candidate) == Writers(current);
  }

  // And nothing else: the terminal record determines the one record it can close.
  lemma ReleaseClosesOneRecord(host: Host, candidate: Record, a: Record, b: Record, leaseId: string, m: int, n: int)
    requires ReleaseShape(host, candidate, a, leaseId, m) && ReleaseShape(host, candidate, b, leaseId, n)
    ensures a == b && m == n
  {
    ReleaseRebuildsCurrent(host, candidate, a, leaseId, m);
    ReleaseRebuildsCurrent(host, candidate, b, leaseId, n);
  }

  // The authority a release claims fixes where its instant lies.
  lemma ReleaseInstant(store: Store, host: Host, candidate: Record, current: Record,
                       leaseId: string, expected: int, now: int)
    requires ReleaseShape(host, candidate, current, leaseId, expected)
    requires ReleaseAuthorised(store, host, candidate, current, now)
    ensures current.heartbeat.value <= candidate.released.value <= now
    ensures candidate.releaseAuthority == Some(Normal)
       <==> now <= current.expires.value
    ensures candidate.releaseAuthority == Some(Normal) ==> candidate.released.value <= current.expires.value
    ensures candidate.releaseAuthority == Some(StaleRecovery) ==> current.expires.value < candidate.released.value
  {
    assert ReleasedLifecycle(candidate);
  }

  // The decision a terminal record was released under follows, directly, the
  // decision that binds the record it closed.
  lemma ReleaseFollowsCurrentDecision(store: Store, host: Host, candidate: Record, current: Record,
                                      leaseId: string, expected: int, now: int)
    requires ReleaseShape(host, candidate, current, leaseId, expected)
    requires ReleaseAuthorised(store, host, candidate, current, now)
    ensures exists release, active ::
      && TerminalEvidence(store, host, candidate, release, active)
      && BoundActive(store, host, current, active) && DirectlyFollows(store, release, active)
  {
    ReleaseRebuildsCurrent(host, candidate, current, leaseId, expected);
    var release, active :| TerminalEvidence(store, host, candidate, release, active);
    EvidenceBinds(store, host, candidate, release, active);
  }

  lemma EvidenceBinds(store: Store, host: Host, r: Record, release: Location, active: Location)
    requires r.schema == V2 && TerminalEvidence(store, host, r, release, active)
    ensures BoundActive(store, host, RebuiltActive(r), active) && DirectlyFollows(store, release, active)
    ensures store.decisions[release].digest == Some(Sha256(r))
    ensures store.decisions[active].digest == Some(Sha256(RebuiltActive(r)))
  {
  }

  // A valid terminal record stays valid as time advances.
  lemma TerminalReleaseStable(store: Store, host: Host, r: Record, now: int, later: int)
    requires TerminalRelease(store, host, r, now) && now <= later
    ensures TerminalRelease(store, host, r, later)
  {
    var release, active :| TerminalEvidence(store, host, r, release, active);
  }

  // ---- Legacy terminal records ----

  predicate LegacyValid(r: Record) {
    && r.leaseId.Some? && SafeId(r.leaseId.value) && SafeId(r.runId)
    && r.state != OtherState && r.generation >= 1 && r.owner != "" && r.created.Some?
    && r.coordination.Some? && StructuralName(r.coordination.value)
    && LegacyFieldsOnly(r) && r.repositories != []
    && (forall item <- r.repositories ::
          && item.Item? && item.mode.Some? && StructuralName(item.repository)
          && (item.exactSha.Some? ==> Sha1Text(item.exactSha.value)))
    && Distinct(Identities(r))
    && (if r.state == Active then
          && Present(r.decisionRef)
          && (if r.activeWriter.None? then Writers(r) == []
              else WriterIdentities(r) == [CanonicalRepo(r.activeWriter.value)])
          && (CanonicalRepo(r.coordination.value) in Identities(r) ==>
                WriterIdentities(r) == [CanonicalRepo(r.coordination.value)])
        else r.activeWriter.None?)
    && Distinct(r.localScopes) && Distinct(r.infrastructure)
  }

  predicate LegacyTerminal(r: Record)
    requires r.schema == V1
  {
    LegacyValid(r) && r.state == Released && r.released.Some? && Present(r.outcomeRef)
  }

  // The record a legacy release writes.
  function LegacyReleased(current: Record, now: int, outcome: string): Record {
    current.(state := Released, generation := current.generation + 1, released := Some(now),
             outcomeRef := Some(outcome), activeWriter := None)
  }

  // None of the texts that legacy validation matches whole ends in a newline.
  predicate Tidy(r: Record) {
    && (r.leaseId.Some? ==> !EndsInNewline(r.leaseId.value)) && !EndsInNewline(r.runId)
    && (r.coordination.Some? ==> !EndsInNewline(r.coordination.value))
    && forall item <- r.repositories :: item.Item? ==>
         && !EndsInNewline(item.repository)
         && (item.exactSha.Some? ==> !EndsInNewline(item.exactSha.value))
  }

  // Whose release is recognised as one.
  predicate Recognised(r: Record) {
    r.schema == V1 ==> Tidy(r)
  }

  lemma WholeTexts(s: string)
    ensures SafeId(Chomp(s)) ==> (SafeId(s) <==> !EndsInNewline(s))
    ensures StructuralName(Chomp(s)) ==> (StructuralName(s) <==> !EndsInNewline(s))
    ensures Sha1Text(Chomp(s)) ==> (Sha1Text(s) <==> !EndsInNewline(s))
  {
    if EndsInNewline(s) {
      var last := |s| - 1;
      assert s[last] in s;
    }
  }

  // Releasing a valid v1 lease yields valid terminal evidence exactly when none
  // of those texts ends in a newline, whatever the time.
  lemma LegacyReleaseIsTerminal(host: Host, current: Record, allow: bool, native: bool, now: int, outcome: string)
    requires ValidLease(host, current, allow, native) && current.schema == V1 && outcome != ""
    ensures LegacyTerminal(LegacyReleased(current, now, outcome)) <==> Tidy(current)
  {
    hide StructuralName, SafeId, Sha1Text, EndsInNewline, Chomp;
    var r := LegacyReleased(current, now, outcome);
    assert Canonicalizer(r) == Canonicalizer(current);
    assert forall i :: 0 <= i < |r.repositories| ==> Identities(r)[i] == Identities(current)[i];
    assert Identities(r) == Identities(current);
    WholeTexts(current.leaseId.value);
    WholeTexts(current.runId);
    WholeTexts(current.coordination.value);
    forall item <- r.repositories
      ensures StructuralName(item.repository) <==> !EndsInNewline(item.repository)
      ensures item.exactSha.Some? ==> (Sha1Text(item.exactSha.value) <==> !EndsInNewline(item.exactSha.value))
    {
      WholeTexts(item.repository);
      if item.exactSha.Some? { WholeTexts(item.exactSha.value); }
    }
  }

  ghost predicate TerminalValid(store: Store, host: Host, r: Record, now: int) {
    if r.schema == V1 then LegacyTerminal(r)
    else r.schema == V2 && ValidLease(host, r, true, false) && r.state == Released
         && TerminalRelease(store, host, r, now)
  }

  lemma TerminalValidStable(store: Store, host: Host, r: Record, now: int, later: int)
    requires TerminalValid(store, host, r, now) && now <= later
    ensures TerminalValid(store, host, r, later)
  {
    if r.schema == V2 {
      TerminalReleaseStable(store, host, r, now, later);
    }
  }
}
