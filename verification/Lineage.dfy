// The archive walk: a lease's past candidates, newest to oldest, against the
// decisions that bound them. Two verifiers run it; they agree with each other
// and with what the admission protocol leaves behind.
module Lineage {
  import opened Commons
  import opened Records
  import opened Decisions
  import opened Lifecycle
  import opened Binding
  import opened LockRoot
  import opened Admission
  import opened AdmissionSafety
  import opened Reachability

  type Candidates = map<ArchiveKey, Record>

  // The predecessor reference of a decision, spelled as the given text.
  predicate SpelledAs(d: Decision, reference: Option<string>) {
    reference.Some? && d.previous == Reference(reference.value)
  }

  predicate NamesPredecessor(store: Store, next: Record, candidate: Record) {
    && next.decisionRef.Some? && next.decisionRef.value in store.references
    && store.references[next.decisionRef.value] in store.decisions
    && SpelledAs(store.decisions[store.references[next.decisionRef.value]], candidate.decisionRef)
  }

  predicate Ancestor(store: Store, candidate: Record, next: Record, id: string, generation: int) {
    && candidate.leaseId == Some(id) && candidate.generation == generation
    && candidate.state == Active && candidate.schema == V2
    && NamesPredecessor(store, next, candidate)
    && SameIdentityFields(candidate, next)
  }

  ghost predicate Vouched(c: Context, r: Record, native: bool) {
    ValidLease(c.host, r, true, native) && exists at :: BoundActive(c.store, c.host, r, at)
  }

  // The candidate of one generation: the current record, or an archived one.
  function At(archive: Candidates, current: Record, id: string, generation: int): Option<Record> {
    if generation == current.generation then Some(current)
    else if (id, generation) in archive then Some(archive[(id, generation)])
    else None
  }

  // Present, and below the current record an ancestor of the one after it.
  predicate PastOk(store: Store, archive: Candidates, current: Record, id: string, generation: int) {
    && At(archive, current, id, generation).Some?
    && (generation < current.generation ==>
          && At(archive, current, id, generation + 1).Some?
          && Ancestor(store, At(archive, current, id, generation).value,
                      At(archive, current, id, generation + 1).value, id, generation))
  }

  ghost predicate LineOk(c: Context, archive: Candidates, current: Record, id: string, native: bool, generation: int) {
    && PastOk(c.store, archive, current, id, generation)
    && Vouched(c, At(archive, current, id, generation).value, native)
  }

  ghost predicate LineageOk(c: Context, archive: Candidates, current: Record, id: string, native: bool) {
    forall k :: 1 <= k <= current.generation ==> LineOk(c, archive, current, id, native, k)
  }

  method CheckVouched(c: Context, r: Record, native: bool) returns (ok: bool)
    requires r.schema == V2
    ensures ok <==> Vouched(c, r, native)
  {
    if !ValidLease(c.host, r, true, native) { return false; }
    ok := CheckActive(c.store, c.host, r);
  }

  // One turn of the walk: the candidate of a generation against the one after it.
  method CheckLine(c: Context, archive: Candidates, current: Record, id: string, native: bool,
                   generation: int, next: Record) returns (ok: bool, candidate: Record)
    requires current.schema == V2 && generation <= current.generation
    requires generation < current.generation ==> At(archive, current, id, generation + 1) == Some(next)
    ensures ok <==> LineOk(c, archive, current, id, native, generation)
    ensures ok ==> At(archive, current, id, generation) == Some(candidate)
  {
    candidate := current;
    if generation != current.generation && (id, generation) in archive {
      candidate := archive[(id, generation)];
    }
    if generation != current.generation
       && !((id, generation) in archive && Ancestor(c.store, candidate, next, id, generation))
    {
      return false, candidate;
    }
    assert PastOk(c.store, archive, current, id, generation);
    ok := CheckVouched(c, candidate, native);
  }

  // The Windows adapter: every generation in one loop, native paths required.
  method VerifyLineage(c: Context, archive: Candidates, current: Record, id: string) returns (ok: bool)
    requires current.leaseId == Some(id) && current.schema == V2 && current.state == Active
    ensures ok <==> LineageOk(c, archive, current, id, true)
  {
    hide Vouched;
    var next := current;
    var generation := current.generation;
    while generation > 0
      invariant generation <= current.generation
      invariant generation >= 0 || generation == current.generation
      invariant forall k :: generation < k <= current.generation ==> LineOk(c, archive, current, id, true, k)
      invariant generation < current.generation ==> At(archive, current, id, generation + 1) == Some(next)
      decreases generation
    {
      ok, next := CheckLine(c, archive, current, id, true, generation, next);
      if !ok { return; }
      generation := generation - 1;
    }
    return true;
  }

  // The POSIX verifier: the current record first, then the past ones.
  method VerifyCustody(c: Context, archive: Candidates, current: Record, id: string) returns (ok: bool)
    requires current.leaseId == Some(id) && current.schema == V2 && current.state == Active
    requires current.generation >= 1
    ensures ok <==> LineageOk(c, archive, current, id, false)
  {
    hide Vouched;
    var next;
    ok, next := CheckLine(c, archive, current, id, false, current.generation, current);
    if !ok { return; }
    var generation := current.generation - 1;
    while generation > 0
      invariant 0 <= generation < current.generation
      invariant forall k :: generation < k <= current.generation ==> LineOk(c, archive, current, id, false, k)
      invariant At(archive, current, id, generation + 1) == Some(next)
      decreases generation
    {
      var candidate;
      ok, candidate := CheckLine(c, archive, current, id, false, generation, next);
      if !ok { return; }
      generation, next := generation - 1, candidate;
    }
    return true;
  }

  // ---- Against the protocol ----

  // The archived records a world offers to a verifier.
  function Readable(w: World): Candidates {
    map key <- w.archive | w.archive[key].content.Json? :: w.archive[key].content.doc
  }

  // The replacement at generation k + 1 named its predecessor by the very text
  // that record carries.
  predicate SameSpelling(store: Store, h: seq<Record>, k: int)
    requires 1 <= k < |h|
  {
    NamesPredecessor(store, h[k], h[k - 1])
  }

  predicate AllSpelled(store: Store, h: seq<Record>) {
    forall k :: 1 <= k < |h| ==> SameSpelling(store, h, k)
  }

  lemma ReplacedV2(c: Context, a: Record, b: Record)
    requires ReplaceValid(c.store, c.host, b, a, a.generation) && b.schema == V2
    ensures SameIdentityFields(a, b) && exists at :: Bound(c.store, c.host, b, at, "lease:expand")
    ensures exists at, previous :: Succeeds(c.store, c.host, b, a, at, previous)
  {
    var at, previous :| Succeeds(c.store, c.host, b, a, at, previous);
  }

  lemma HistoryVouched(c: Context, id: string, h: seq<Record>, now: int, k: nat)
    requires Legal(RulesOf(c), id, h, now) && k < |h| && h[k].state == Active && h[0].schema == V2
    ensures Vouched(c, h[k], true) && Vouched(c, h[k], false)
  {
    hide RulesOf;
    LegalIsValid(c, id, h, now, k);
    SelfWriteAllowed(c.host, h[k], k > 0);
    NativeIsValid(c.host, h[k]);
    HistoryBound(c, id, h, now, k);
  }

  lemma HistoryBound(c: Context, id: string, h: seq<Record>, now: int, k: nat)
    requires Legal(RulesOf(c), id, h, now) && k < |h| && h[k].state == Active && h[0].schema == V2
    ensures exists at :: BoundActive(c.store, c.host, h[k], at)
  {
    if k == 0 {
      AcquireBound(c, h[0]);
    } else {
      var i := k - 1;
      StepFrom(c, id, h, now, i, k);
      ReplacedBound(c, h[i], h[k]);
    }
  }

  // Neighbouring ACTIVE records of a history are related by a replacement.
  lemma StepFrom(c: Context, id: string, h: seq<Record>, now: int, i: nat, k: nat)
    requires Legal(RulesOf(c), id, h, now) && k == i + 1 < |h| && h[k].state == Active
    ensures ReplaceValid(c.store, c.host, h[k], h[i], h[i].generation)
    ensures h[k].schema == h[0].schema && h[i].state == Active && h[i].generation == k
    ensures h[i].leaseId == Some(id) && h[k].leaseId == Some(id)
  {
    RulesAreSound(c);
    LegalFacts(RulesOf(c), id, h, now, i);
    LegalFacts(RulesOf(c), id, h, now, k);
    assert LegalStep(RulesOf(c), h[i], h[k], now);
    StepFacts(RulesOf(c), h[i], h[k], now);
  }

  lemma ReplacedBound(c: Context, a: Record, b: Record)
    requires ReplaceValid(c.store, c.host, b, a, a.generation) && b.schema == V2 && a.generation >= 1
    ensures exists at :: BoundActive(c.store, c.host, b, at)
  {
    ReplacedV2(c, a, b);
    var at :| Bound(c.store, c.host, b, at, "lease:expand");
    assert BoundActive(c.store, c.host, b, at);
  }

  lemma AcquireBound(c: Context, d: Record)
    requires AcquireValid(c.store, c.host, d)
    ensures exists at :: BoundActive(c.store, c.host, d, at)
  {
    var at :| Bound(c.store, c.host, d, at, "lease:acquire");
    assert BoundActive(c.store, c.host, d, at);
  }

  lemma SelfWriteAllowed(host: Host, r: Record, allow: bool)
    requires ValidLease(host, r, allow, true)
    ensures ValidLease(host, r, true, true)
  {
  }

  lemma Neighbours(c: Context, id: string, h: seq<Record>, now: int, k: int)
    requires Legal(RulesOf(c), id, h, now) && 1 <= k < |h| && h[k].state == Active && h[0].schema == V2
    ensures Ancestor(c.store, h[k - 1], h[k], id, k) <==> SameSpelling(c.store, h, k)
  {
    hide RulesOf;
    var i := k - 1;
    StepFrom(c, id, h, now, i, k);
    ReplacedV2(c, h[i], h[k]);
  }

  // Both verifiers accept the past of an ACTIVE v2 lease exactly when each
  // replacement spelled its predecessor's reference as that record did:
  // replacement compares the resolved files, the walk the texts.
  lemma ReachableLineage(c: Context, worlds: seq<World>, actions: seq<Action>, i: nat, id: string, native: bool)
    requires IsRun(c, worlds, actions) && i < |worlds|
    requires ActiveFile(worlds[i].files, id) && worlds[i].files[id].content.doc.schema == V2
    ensures id in worlds[i].history
    ensures LineageOk(c, Readable(worlds[i]), worlds[i].files[id].content.doc, id, native)
       <==> AllSpelled(c.store, worlds[i].history[id])
  {
    hide RulesOf, LineageOk, AllSpelled, Sound, Serial, NoConflict, IdsDistinct, Progress;
    RulesAreSound(c);
    RunInv(RulesOf(c), worlds, actions, i);
    var w := worlds[i];
    var h := w.history[id];
    assert StoredFile(w.files[id], h);
    LegalFacts(RulesOf(c), id, h, w.now, |h| - 1);
    forall k | 1 <= k <= |h| ensures At(Readable(w), Last(h), id, k) == Some(h[k - 1]) {
      if k < |h| { assert ArchivedCopy(w, id, k); }
    }
    LineageMatchesHistory(c, Readable(w), id, h, w.now, native);
  }

  lemma LineageMatchesHistory(c: Context, archive: Candidates, id: string, h: seq<Record>, now: int, native: bool)
    requires Legal(RulesOf(c), id, h, now) && h[0].schema == V2 && Last(h).state == Active
    requires Last(h).generation == |h|
    requires forall k :: 1 <= k <= |h| ==> At(archive, Last(h), id, k) == Some(h[k - 1])
    ensures LineageOk(c, archive, Last(h), id, native) <==> AllSpelled(c.store, h)
  {
    hide RulesOf, LineOk, SameSpelling;
    forall k | 1 <= k <= |h|
      ensures LineOk(c, archive, Last(h), id, native, k) <==> (k < |h| ==> SameSpelling(c.store, h, k))
    {
      LineMatches(c, archive, id, h, now, native, k);
    }
    if LineageOk(c, archive, Last(h), id, native) {
      forall k | 1 <= k < |h| ensures SameSpelling(c.store, h, k) {
        assert LineOk(c, archive, Last(h), id, native, k);
      }
    }
  }

  lemma LineMatches(c: Context, archive: Candidates, id: string, h: seq<Record>, now: int, native: bool, k: int)
    requires Legal(RulesOf(c), id, h, now) && h[0].schema == V2 && Last(h).state == Active
    requires Last(h).generation == |h| && 1 <= k <= |h|
    requires forall j :: 1 <= j <= |h| ==> At(archive, Last(h), id, j) == Some(h[j - 1])
    ensures LineOk(c, archive, Last(h), id, native, k) <==> (k < |h| ==> SameSpelling(c.store, h, k))
  {
    hide RulesOf, Legal, Vouched, Ancestor, NamesPredecessor;
    RulesAreSound(c);
    LegalFacts(RulesOf(c), id, h, now, k - 1);
    HistoryVouched(c, id, h, now, k - 1);
    assert At(archive, Last(h), id, k) == Some(h[k - 1]);
    if k < |h| {
      LegalFacts(RulesOf(c), id, h, now, k);
      assert At(archive, Last(h), id, k + 1) == Some(h[k]);
      Neighbours(c, id, h, now, k);
    }
  }

  // References that resolve injectively leave no room for two spellings.
  predicate Injective(references: map<string, Location>) {
    forall a, b :: a in references && b in references && references[a] == references[b] ==> a == b
  }

  // With injective references every reachable lineage is accepted.
  lemma InjectiveReferencesAccepted(c: Context, worlds: seq<World>, actions: seq<Action>, i: nat, id: string, native: bool)
    requires IsRun(c, worlds, actions) && i < |worlds|
    requires ActiveFile(worlds[i].files, id) && worlds[i].files[id].content.doc.schema == V2
    requires Injective(c.store.references)
    ensures LineageOk(c, Readable(worlds[i]), worlds[i].files[id].content.doc, id, native)
  {
    ReachableLineage(c, worlds, actions, i, id, native);
    ActiveHistory(c, worlds, actions, i, id);
    InjectiveSpells(c, id, worlds[i].history[id], worlds[i].now);
  }

  lemma ActiveHistory(c: Context, worlds: seq<World>, actions: seq<Action>, i: nat, id: string)
    requires IsRun(c, worlds, actions) && i < |worlds|
    requires ActiveFile(worlds[i].files, id) && worlds[i].files[id].content.doc.schema == V2
    ensures id in worlds[i].history && Legal(RulesOf(c), id, worlds[i].history[id], worlds[i].now)
    ensures worlds[i].history[id][0].schema == V2
    ensures Last(worlds[i].history[id]) == worlds[i].files[id].content.doc
  {
    hide RulesOf;
    RulesAreSound(c);
    RunInv(RulesOf(c), worlds, actions, i);
    var h := worlds[i].history[id];
    assert StoredFile(worlds[i].files[id], h);
    LegalFacts(RulesOf(c), id, h, worlds[i].now, |h| - 1);
  }

  lemma InjectiveSpells(c: Context, id: string, h: seq<Record>, now: int)
    requires Legal(RulesOf(c), id, h, now) && Last(h).state == Active && h[0].schema == V2
    requires Injective(c.store.references)
    ensures AllSpelled(c.store, h)
  {
    hide RulesOf, SameSpelling, Injective;
    forall k | 1 <= k < |h| ensures SameSpelling(c.store, h, k) {
      InjectiveSpellsOne(c, id, h, now, k);
    }
  }

  lemma InjectiveSpellsOne(c: Context, id: string, h: seq<Record>, now: int, k: int)
    requires Legal(RulesOf(c), id, h, now) && Last(h).state == Active && h[0].schema == V2
    requires Injective(c.store.references) && 1 <= k < |h|
    ensures SameSpelling(c.store, h, k)
  {
    hide RulesOf, Injective, NamesPredecessor, Succeeds, Legal, ReplaceValid, Bound;
    var i := k - 1;
    ActiveUpTo(c, id, h, now, k);
    StepFrom(c, id, h, now, i, k);
    ReplacedV2(c, h[i], h[k]);
    SucceedsSpells(c, h[i], h[k]);
  }

  lemma ActiveUpTo(c: Context, id: string, h: seq<Record>, now: int, k: nat)
    requires Legal(RulesOf(c), id, h, now) && Last(h).state == Active && k < |h|
    ensures h[k].state == Active
  {
    hide RulesOf, Legal, Sound;
    RulesAreSound(c);
    LegalFacts(RulesOf(c), id, h, now, k);
  }

  lemma SucceedsSpells(c: Context, a: Record, b: Record)
    requires exists at, previous :: Succeeds(c.store, c.host, b, a, at, previous)
    requires Injective(c.store.references)
    ensures NamesPredecessor(c.store, b, a)
  {
    var at, previous :| Succeeds(c.store, c.host, b, a, at, previous);
    var d := c.store.decisions[at];
    assert c.store.references[d.previous.text] == c.store.references[a.decisionRef.value];
  }

  // ---- The decision chain ----

  function DecisionOf(store: Store, r: Record): Location {
    if r.decisionRef.Some? && r.decisionRef.value in store.references
    then store.references[r.decisionRef.value] else ""
  }

  // The decisions of the records k, k - 1, ..., 0 of a history.
  function DecisionsBack(store: Store, h: seq<Record>, k: nat): (files: seq<Location>)
    requires k < |h|
    ensures |files| == k + 1 && forall i :: 0 <= i <= k ==> files[i] == DecisionOf(store, h[k - i])
  {
    [DecisionOf(store, h[k])] + if k == 0 then [] else DecisionsBack(store, h, k - 1)
  }

  // The chain below the decision of generation k visits exactly the decisions
  // of generations k, k - 1, ..., 1 of the lease.
  lemma {:induction false} ChainVisitsHistory(c: Context, id: string, h: seq<Record>, now: int, k: nat)
    requires Legal(RulesOf(c), id, h, now) && h[0].schema == V2 && k < |h| && h[k].state == Active
    ensures Descends(c.store, DecisionOf(c.store, h[k]), h[k].runId, true, k + 1)
    ensures Visited(c.store, DecisionOf(c.store, h[k]), h[k].runId, true, k + 1) == DecisionsBack(c.store, h, k)
    decreases k
  {
    hide RulesOf, Legal, Descends, Visited, DecisionOf, Predecessor;
    ActiveDescends(c, id, h, now, k);
    var at := DecisionOf(c.store, h[k]);
    if k > 0 {
      var i := k - 1;
      NeighbourLeads(c, id, h, now, i, k);
      ChainVisitsHistory(c, id, h, now, i);
      VisitsOneMore(c.store, at, DecisionOf(c.store, h[i]), h[k].runId, k + 1);
    }
  }

  lemma ActiveDescends(c: Context, id: string, h: seq<Record>, now: int, k: nat)
    requires Legal(RulesOf(c), id, h, now) && h[0].schema == V2 && k < |h| && h[k].state == Active
    ensures Descends(c.store, DecisionOf(c.store, h[k]), h[k].runId, true, k + 1)
  {
    hide RulesOf, BoundActive, Legal, Descends, DecisionOf, Sound;
    HistoryBound(c, id, h, now, k);
    RulesAreSound(c);
    LegalFacts(RulesOf(c), id, h, now, k);
    BoundDescends(c, h[k]);
  }

  lemma NeighbourLeads(c: Context, id: string, h: seq<Record>, now: int, i: nat, k: nat)
    requires Legal(RulesOf(c), id, h, now) && h[0].schema == V2 && k == i + 1 < |h| && h[k].state == Active
    ensures h[i].state == Active && h[i].runId == h[k].runId
    ensures DecisionOf(c.store, h[k]) in c.store.decisions
    ensures Predecessor(c.store, DecisionOf(c.store, h[k]), true) == Some(DecisionOf(c.store, h[i]))
  {
    hide RulesOf, Succeeds, Legal, DecisionOf, Predecessor, Bound;
    StepFrom(c, id, h, now, i, k);
    ReplacedV2(c, h[i], h[k]);
    SucceedsLeads(c, h[i], h[k]);
  }

  lemma VisitsOneMore(store: Store, at: Location, previous: Location, runId: string, n: int)
    requires n > 1 && Descends(store, at, runId, true, n) && Predecessor(store, at, true) == Some(previous)
    ensures Descends(store, previous, runId, true, n - 1)
    ensures Visited(store, at, runId, true, n) == [at] + Visited(store, previous, runId, true, n - 1)
  {
  }

  lemma BoundDescends(c: Context, r: Record)
    requires r.schema == V2 && exists at :: BoundActive(c.store, c.host, r, at)
    ensures Descends(c.store, DecisionOf(c.store, r), r.runId, true, r.generation)
  {
    var at :| BoundActive(c.store, c.host, r, at);
    assert at == DecisionOf(c.store, r);
    assert HasChain(c.store, at, r.runId, true);
  }

  lemma SucceedsLeads(c: Context, a: Record, b: Record)
    requires exists at, previous :: Succeeds(c.store, c.host, b, a, at, previous)
    ensures DecisionOf(c.store, b) in c.store.decisions
    ensures Predecessor(c.store, DecisionOf(c.store, b), true) == Some(DecisionOf(c.store, a))
  {
    var at, previous :| Succeeds(c.store, c.host, b, a, at, previous);
    assert at == DecisionOf(c.store, b) && previous == DecisionOf(c.store, a);
  }
}
