// What holds in every reachable state, and between any two states of a run.
module Reachability {
  import opened Commons
  import opened Text
  import opened Records
  import opened Lifecycle
  import opened Overlap
  import opened LockRoot
  import opened Admission
  import opened AdmissionSafety

  // ---- The real checks ----

  ghost predicate LegacyClosable(host: Host, current: Record, outcome: string) {
    && current.schema == V1 && outcome != "" && current.leaseId.Some? && SafeId(current.leaseId.value)
    && (IsCoordinationSelfWrite(current) ==> ValidLease(host, current, true, false))
  }

  ghost function RulesOf(c: Context): Rules {
    Rules(
      (candidate: Record) => AcquireValid(c.store, c.host, candidate),
      (candidate: Record, now: int) => Unexpired(candidate, now),
      (candidate: Record) => ValidLease(c.host, candidate, true, true),
      (candidate: Record, current: Record, expected: int) =>
        ReplaceValid(c.store, c.host, candidate, current, expected),
      (terminal: Record, current: Record, id: string, expected: int) =>
        ReleaseShape(c.host, terminal, current, id, expected),
      (terminal: Record, current: Record, now: int) =>
        ReleaseAuthorised(c.store, c.host, terminal, current, now),
      (current: Record, outcome: string) => LegacyClosable(c.host, current, outcome),
      (current: Record, now: int, outcome: string) => LegacyReleased(current, now, outcome),
      (a: Record, b: Record) => Conflicts(c.host, a, b),
      (candidate: Record, files: Files, id: string, now: int) => PassesScan(c, candidate, files, id, now))
  }

  lemma AcquireFacts(c: Context, d: Record)
    requires AcquireValid(c.store, c.host, d)
    ensures d.leaseId.Some? && d.state == Active && d.generation == 1 && d.schema != UnknownSchema
    ensures ValidLease(c.host, d, false, true)
  {
  }

  lemma ReplaceFacts(c: Context, candidate: Record, current: Record, expected: int)
    requires ReplaceValid(c.store, c.host, candidate, current, expected)
    ensures SameLine(current, candidate) && current.state == Active && candidate.state == Active
    ensures current.generation == expected && ValidLease(c.host, candidate, true, true)
  {
  }

  lemma ReleaseFacts(c: Context, terminal: Record, current: Record, id: string, expected: int)
    requires ReleaseShape(c.host, terminal, current, id, expected)
    ensures SameLine(current, terminal) && current.state == Active && terminal.state == Released
    ensures current.schema == V2
  {
  }

  lemma PassesFacts(c: Context, candidate: Record, files: Files, id: string, now: int)
    requires PassesScan(c, candidate, files, id, now) && candidate.leaseId.Some?
    ensures Fold(candidate.leaseId.value) != Fold(id)
    ensures ActiveFile(files, id) && files[id].regular ==> !Conflicts(c.host, candidate, files[id].content.doc)
  {
    ScanShape(c, files, id, now);
  }

  lemma RulesAreSound(c: Context)
    ensures Sound(RulesOf(c))
  {
    hide PassesScan;
    var r := RulesOf(c);
    forall d | r.acquires(d)
      ensures d.leaseId.Some? && d.state == Active && d.generation == 1 && d.schema != UnknownSchema
    {
      AcquireFacts(c, d);
    }
    forall a, b, n | r.succeeds(b, a, n)
      ensures SameLine(a, b) && a.state == Active && b.state == Active && a.generation == n
    {
      ReplaceFacts(c, b, a, n);
    }
    forall a, b, id, n | r.closes(b, a, id, n)
      ensures SameLine(a, b) && a.state == Active && b.state == Released && a.schema == V2
    {
      ReleaseFacts(c, b, a, id, n);
    }
    forall a, b ensures r.conflicts(a, b) == r.conflicts(b, a) {
      ConflictsSymmetric(c.host, a, b);
    }
    forall d, files: Files, id, now | r.passes(d, files, id, now) && id in files && d.leaseId.Some?
      ensures Fold(d.leaseId.value) != Fold(id)
      ensures ActiveFile(files, id) && files[id].regular ==> !r.conflicts(d, files[id].content.doc)
    {
      PassesFacts(c, d, files, id, now);
    }
  }

  // ---- Runs ----

  ghost predicate IsRun(c: Context, worlds: seq<World>, actions: seq<Action>) {
    Run(RulesOf(c), worlds, actions)
  }

  lemma {:induction false} RunInv(c: Rules, worlds: seq<World>, actions: seq<Action>, i: nat)
    requires Sound(c) && Run(c, worlds, actions) && i < |worlds|
    ensures Inv(c, worlds[i])
  {
    if i == 0 {
      InitialInv(c, worlds[0]);
    } else {
      var h := i - 1;
      RunInv(c, worlds, actions, h);
      assert Next(c, worlds[h], actions[h], worlds[i]);
      NextKeepsInv(c, worlds[h], actions[h], worlds[i]);
    }
  }

  // At most one process is ever between taking and giving back the mutex.
  lemma MutualExclusion(c: Context, worlds: seq<World>, actions: seq<Action>, i: nat, p: nat, q: nat)
    requires IsRun(c, worlds, actions) && i < |worlds|
    requires Inside(worlds[i], p) && Inside(worlds[i], q)
    ensures p == q && worlds[i].mutex == Some(Running(worlds[i], p).token)
  {
    hide RulesOf;
    RulesAreSound(c);
    RunInv(RulesOf(c), worlds, actions, i);
  }

  // No two ACTIVE records ever hold conflicting claims, however processes
  // interleave, die, or outlive the records' expiry.
  lemma NoConflictingActiveLeases(c: Context, worlds: seq<World>, actions: seq<Action>, i: nat, a: string, b: string)
    requires IsRun(c, worlds, actions) && i < |worlds|
    requires ActiveFile(worlds[i].files, a) && ActiveFile(worlds[i].files, b) && a != b
    ensures !Conflicts(c.host, worlds[i].files[a].content.doc, worlds[i].files[b].content.doc)
    ensures Fold(a) != Fold(b)
  {
    RulesAreSound(c);
    var r := RulesOf(c);
    RunInv(r, worlds, actions, i);
    assert !r.conflicts(worlds[i].files[a].content.doc, worlds[i].files[b].content.doc);
  }

  // ---- Generations ----

  ghost predicate Extends(before: map<string, seq<Record>>, after: map<string, seq<Record>>) {
    forall id <- before :: id in after && before[id] <= after[id]
  }

  // One step publishes nothing, or one record under one id, one generation on.
  lemma StepPublishes(c: Rules, w: World, a: Action, w': World)
    requires Inv(c, w) && Next(c, w, a, w')
    ensures Extends(w.history, w'.history)
    ensures w'.history == w.history
      || exists id, doc :: a.Publish? && Appended(w, w', id, doc)
  {
    hide Inv, Next;
    if a.Publish? {
      PublishAppends(c, w, a.p, a.link, w');
    } else {
      OnlyPublishPublishes(c, w, a, w');
    }
  }

  lemma OnlyPublishPublishes(c: Rules, w: World, a: Action, w': World)
    requires Next(c, w, a, w') && !a.Publish?
    ensures w'.history == w.history
  {
    hide RequestValid, CanRead;
  }

  lemma PublishAppends(c: Rules, w: World, p: nat, link: bool, w': World)
    requires Inv(c, w) && Next(c, w, Publish(p, link), w')
    ensures exists id, doc :: Appended(w, w', id, doc)
  {
    hide CanPublish, Serial, Archived, NoConflict, IdsDistinct, Progress, Sound, Legal, StoredFile;
    NextKeepsInv(c, w, Publish(p, link), w');
    var before := Running(w, p);
    var id := Target(before.op).value;
    var process := before.(stage := if link then Linked else Leaving);
    var doc :| CanPublish(c, w, before.op, before.stage.current, doc, link)
      && w' == Move(WithRecord(w, id, doc, link), p, process);
    LegalFacts(c, id, w'.history[id], w'.now, |w'.history[id]| - 1);
    assert Appended(w, w', id, doc);
  }

  predicate Appended(w: World, w': World, id: string, doc: Record) {
    && var before := if id in w.history then w.history[id] else [];
    w'.history == w.history[id := before + [doc]] && doc.generation == |before| + 1
  }

  lemma {:induction false} HistoryGrows(c: Rules, worlds: seq<World>, actions: seq<Action>, i: nat, j: nat)
    requires Sound(c) && Run(c, worlds, actions) && i <= j < |worlds|
    ensures Extends(worlds[i].history, worlds[j].history)
    decreases j
  {
    if i < j {
      var h := j - 1;
      HistoryGrows(c, worlds, actions, i, h);
      RunInv(c, worlds, actions, h);
      assert Next(c, worlds[h], actions[h], worlds[j]);
      StepPublishes(c, worlds[h], actions[h], worlds[j]);
    }
  }

  // Every successful publication raises one lease's generation by exactly one
  // and touches no other lease.
  lemma PublicationRaisesGenerationByOne(c: Context, worlds: seq<World>, actions: seq<Action>, i: nat, j: nat)
    requires IsRun(c, worlds, actions) && i < |actions| && j == i + 1
    ensures worlds[j].history == worlds[i].history
      || exists id, doc :: Appended(worlds[i], worlds[j], id, doc)
    ensures forall id <- worlds[i].files :: id in worlds[j].files
  {
    hide RulesOf;
    RulesAreSound(c);
    var r := RulesOf(c);
    RunInv(r, worlds, actions, i);
    RunInv(r, worlds, actions, j);
    assert Next(r, worlds[i], actions[i], worlds[j]);
    StepPublishes(r, worlds[i], actions[i], worlds[j]);
  }

  // A replace or release published at step i was expecting the generation stored then.
  predicate Expects(op: Operation, id: string, expected: int) {
    match op
    case Acquire(_) => false
    case Replace(candidate, n) => candidate.leaseId == Some(id) && n == expected
    case Release(i, n, _, _) => i == id && n == expected
  }

  predicate PublishedAt(worlds: seq<World>, actions: seq<Action>, i: nat, id: string, expected: int)
    requires |worlds| == |actions| + 1 && i < |actions|
  {
    && actions[i].Publish? && Inside(worlds[i], actions[i].p)
    && Expects(Running(worlds[i], actions[i].p).op, id, expected)
  }

  lemma PublishConsumesGeneration(c: Rules, w: World, p: nat, link: bool, w': World, id: string, expected: int)
    requires Inv(c, w) && Next(c, w, Publish(p, link), w')
    requires Inside(w, p) && Expects(Running(w, p).op, id, expected)
    ensures id in w.history && |w.history[id]| == expected
    ensures id in w'.history && |w'.history[id]| == expected + 1
  {
    hide Sound, NoConflict, IdsDistinct, Archived, Serial;
    var before := Running(w, p);
    assert ProcessOk(c, w.files, w.archive, before);
    if before.op.Replace? {
      ReplacingFacts(c, w.files, before.op.candidate, expected, before.stage.current);
    }
    FoundIsLast(c, w, id, before.stage.current.value);
  }

  // Of any replaces and releases that expect one generation of one lease, at
  // most one ever publishes.
  lemma OnePublicationPerGeneration(c: Context, worlds: seq<World>, actions: seq<Action>,
                                    i: nat, j: nat, id: string, expected: int)
    requires IsRun(c, worlds, actions) && i < |actions| && j < |actions|
    requires PublishedAt(worlds, actions, i, id, expected) && PublishedAt(worlds, actions, j, id, expected)
    ensures i == j
  {
    hide RulesOf;
    RulesAreSound(c);
    if i < j { SecondPublicationFails(RulesOf(c), worlds, actions, i, j, id, expected); }
    if j < i { SecondPublicationFails(RulesOf(c), worlds, actions, j, i, id, expected); }
  }

  lemma SecondPublicationFails(c: Rules, worlds: seq<World>, actions: seq<Action>,
                               i: nat, j: nat, id: string, expected: int)
    requires Sound(c) && Run(c, worlds, actions) && i < j < |actions|
    requires PublishedAt(worlds, actions, i, id, expected)
    ensures !PublishedAt(worlds, actions, j, id, expected)
  {
    if !PublishedAt(worlds, actions, j, id, expected) { return; }
    var i', j' := i + 1, j + 1;
    RunInv(c, worlds, actions, i);
    RunInv(c, worlds, actions, j);
    assert Next(c, worlds[i], actions[i], worlds[i']);
    assert Next(c, worlds[j], actions[j], worlds[j']);
    PublishConsumesGeneration(c, worlds[i], actions[i].p, actions[i].link, worlds[i'], id, expected);
    PublishConsumesGeneration(c, worlds[j], actions[j].p, actions[j].link, worlds[j'], id, expected);
    HistoryGrows(c, worlds, actions, i', j);
  }

  // A released lease never changes again.
  lemma ReleasedIsAbsorbing(c: Context, worlds: seq<World>, actions: seq<Action>, i: nat, j: nat, id: string)
    requires IsRun(c, worlds, actions) && i <= j < |worlds|
    requires id in worlds[i].files && worlds[i].files[id].content.Json?
    requires worlds[i].files[id].content.doc.state == Released
    ensures id in worlds[j].files && worlds[j].files[id].content == worlds[i].files[id].content
  {
    hide RulesOf;
    RulesAreSound(c);
    var r := RulesOf(c);
    RunInv(r, worlds, actions, i);
    RunInv(r, worlds, actions, j);
    HistoryGrows(r, worlds, actions, i, j);
    assert StoredFile(worlds[i].files[id], worlds[i].history[id]);
    assert StoredFile(worlds[j].files[id], worlds[j].history[id]);
    var k := |worlds[i].history[id]| - 1;
    LegalFacts(r, id, worlds[j].history[id], worlds[j].now, k);
  }

  // An acquisition that publishes has cleared every file already there.
  lemma AcquisitionIsNew(c: Rules, w: World, p: nat, id: string)
    requires Inv(c, w) && Inside(w, p) && Running(w, p).op.Acquire? && Running(w, p).stage.Publishing?
    requires id in w.files
    ensures Target(Running(w, p).op).Some? && Fold(Target(Running(w, p).op).value) != Fold(id)
  {
    var process := Running(w, p);
    assert ProcessOk(c, w.files, w.archive, process);
    assert Clear(c, w.files, process.op.candidate, id);
  }

  // A lease id, whatever its case, is acquired at most once in a whole run:
  // an acquisition never publishes under a case variant of an id already used.
  lemma AcquiredOnce(c: Context, worlds: seq<World>, actions: seq<Action>, i: nat, j: nat, id: string)
    requires IsRun(c, worlds, actions) && i <= j < |actions|
    requires id in worlds[i].files
    requires actions[j].Publish? && Inside(worlds[j], actions[j].p)
    requires Running(worlds[j], actions[j].p).op.Acquire?
    ensures Target(Running(worlds[j], actions[j].p).op).Some?
    ensures Fold(Target(Running(worlds[j], actions[j].p).op).value) != Fold(id)
  {
    hide RulesOf;
    RulesAreSound(c);
    IdsPersist(RulesOf(c), worlds, actions, i, j, id);
    var k := j + 1;
    assert Next(RulesOf(c), worlds[j], actions[j], worlds[k]);
    AcquisitionIsNew(RulesOf(c), worlds[j], actions[j].p, id);
  }

  lemma IdsPersist(c: Rules, worlds: seq<World>, actions: seq<Action>, i: nat, j: nat, id: string)
    requires Sound(c) && Run(c, worlds, actions) && i <= j < |worlds| && id in worlds[i].files
    ensures id in worlds[j].files && Inv(c, worlds[j])
  {
    RunInv(c, worlds, actions, i);
    RunInv(c, worlds, actions, j);
    HistoryGrows(c, worlds, actions, i, j);
  }

  // ---- The archive ----

  // While an ACTIVE v2 lease is at generation g, the archive holds exactly its
  // published records 1 .. g-1, and possibly g itself after an interrupted replace.
  lemma ArchiveHoldsThePast(c: Context, worlds: seq<World>, actions: seq<Action>, i: nat, id: string, k: int)
    requires IsRun(c, worlds, actions) && i < |worlds|
    requires ActiveFile(worlds[i].files, id) && worlds[i].files[id].content.doc.schema == V2
    ensures var w := worlds[i];
      var g := w.files[id].content.doc.generation;
      && id in w.history && w.history[id] != [] && |w.history[id]| == g && Last(w.history[id]) == w.files[id].content.doc
      && (1 <= k < g ==> (id, k) in w.archive && w.archive[(id, k)] == Whole(w.history[id][k - 1]))
      && ((id, k) in w.archive ==> 1 <= k <= g && w.archive[(id, k)].content == Json(w.history[id][k - 1]))
  {
    hide RulesOf;
    RulesAreSound(c);
    var r := RulesOf(c);
    RunInv(r, worlds, actions, i);
    var w := worlds[i];
    assert StoredFile(w.files[id], w.history[id]);
    LegalFacts(r, id, w.history[id], w.now, |w.history[id]| - 1);
    if 1 <= k < |w.history[id]| { assert ArchivedCopy(w, id, k); }
    if (id, k) in w.archive { assert ArchivedCopy(w, id, k); }
  }

  // ---- Freed resources ----

  lemma ClosedIsTerminal(c: Context, a: Record, b: Record, allow: bool, now: int)
    requires ClosedBy(RulesOf(c), a, b, now) && ValidLease(c.host, a, allow, true)
    ensures b.state == Released && b.schema != UnknownSchema
    ensures TerminalValid(c.store, c.host, b, now) <==> Recognised(b)
  {
    var r := RulesOf(c);
    var at :| at <= now && (ClosedV2(r, a, b, at) || ClosedV1(r, a, b, at));
    if ClosedV1(r, a, b, at) {
      var outcome :| r.closesLegacy(a, outcome) && b == r.legacyReleased(a, at, outcome);
      LegacyReleaseIsTerminal(c.host, a, allow, true, at, outcome);
    } else {
      V2CloseIsTerminal(c, a, b, a.leaseId.value, a.generation, at, now);
    }
  }

  lemma V2CloseIsTerminal(c: Context, a: Record, b: Record, id: string, n: int, at: int, now: int)
    requires ReleaseShape(c.host, b, a, id, n) && ReleaseAuthorised(c.store, c.host, b, a, at) && at <= now
    ensures b.state == Released && TerminalValid(c.store, c.host, b, now)
  {
    ReleaseFacts(c, b, a, id, n);
    NativeIsValid(c.host, b);
    assert TerminalValid(c.store, c.host, b, at);
    TerminalValidStable(c.store, c.host, b, at, now);
  }

  lemma NativeIsValid(host: Host, r: Record)
    requires ValidLease(host, r, true, true)
    ensures ValidLease(host, r, true, false)
  {
  }

  // A history's ACTIVE records are valid leases.
  lemma LegalIsValid(c: Context, id: string, h: seq<Record>, now: int, k: nat)
    requires Legal(RulesOf(c), id, h, now) && k < |h| && h[k].state == Active
    ensures ValidLease(c.host, h[k], k > 0, true)
  {
    var r := RulesOf(c);
    if k == 0 {
      AcquireFacts(c, h[0]);
    } else {
      var i := k - 1;
      RulesAreSound(c);
      assert LegalStep(r, h[i], h[k], now);
      StepFacts(r, h[i], h[k], now);
      ReplaceFacts(c, h[k], h[i], h[i].generation);
    }
  }

  // Once released, a lease's record is read as terminal by every later scan, at
  // whatever time, unless a v1 text that legacy validation matches whole ends in
  // a newline: then it is never read as terminal.
  lemma ReleasedStaysFree(c: Context, worlds: seq<World>, actions: seq<Action>, i: nat, j: nat, id: string)
    requires IsRun(c, worlds, actions) && i <= j < |worlds|
    requires id in worlds[i].files && worlds[i].files[id].content.Json?
    requires worlds[i].files[id].content.doc.state == Released
    ensures id in worlds[j].files
    ensures Treat(c, RepositoryRoot, worlds[j].files, id, worlds[j].now) == AsTerminal
       <==> Recognised(worlds[i].files[id].content.doc)
  {
    hide RulesOf;
    ReleasedIsAbsorbing(c, worlds, actions, i, j, id);
    RulesAreSound(c);
    RunInv(RulesOf(c), worlds, actions, j);
    ReleasedFileIsTerminal(c, worlds[j], id);
  }

  lemma ReleasedFileIsTerminal(c: Context, w: World, id: string)
    requires Inv(RulesOf(c), w) && id in w.files && w.files[id].content.Json?
    requires w.files[id].content.doc.state == Released
    ensures Treat(c, RepositoryRoot, w.files, id, w.now) == AsTerminal <==> Recognised(w.files[id].content.doc)
  {
    var r := RulesOf(c);
    var h := w.history[id];
    assert StoredFile(w.files[id], h);
    var n := |h| - 1;
    LegalFacts(r, id, h, w.now, n);
    ReleasedLastIsTerminal(c, id, h, w.now);
    TerminalTreated(c, w.files, id, w.now);
  }

  lemma ReleasedLastIsTerminal(c: Context, id: string, h: seq<Record>, now: int)
    requires Sound(RulesOf(c)) && Legal(RulesOf(c), id, h, now) && Last(h).state == Released
    ensures |h| > 1 && (TerminalValid(c.store, c.host, Last(h), now) <==> Recognised(Last(h)))
    ensures Last(h).schema != UnknownSchema
  {
    var r := RulesOf(c);
    var n := |h| - 1;
    var m := n - 1;
    assert r.acquires(h[0]);
    assert LegalStep(r, h[m], h[n], now);
    StepFacts(r, h[m], h[n], now);
    LegalIsValid(c, id, h, now, m);
    ClosedIsTerminal(c, h[m], h[n], m > 0, now);
  }

  lemma TerminalTreated(c: Context, files: Files, id: string, now: int)
    requires OrdinaryEntry(files, id) && files[id].content.Json?
    requires files[id].content.doc.state == Released && files[id].content.doc.leaseId == Some(id)
    requires files[id].content.doc.schema != UnknownSchema
    ensures Treat(c, RepositoryRoot, files, id, now) == AsTerminal
       <==> TerminalValid(c.store, c.host, files[id].content.doc, now)
  {
    hide TerminalRelease, ValidLease, LegacyTerminal;
  }

  // ---- Interrupted publication ----

  // A record left with its temporary name still linked, and no process about
  // to remove it.
  ghost predicate Abandoned(w: World, id: string) {
    && id in w.files && w.files[id].links != 1
    && forall p :: !(Inside(w, p) && Running(w, p).stage.Linked? && Target(Running(w, p).op) == Some(id))
  }

  lemma AbandonedStep(c: Rules, w: World, a: Action, w': World, id: string)
    requires Next(c, w, a, w') && Abandoned(w, id)
    ensures Abandoned(w', id) && w'.files[id] == w.files[id]
  {
    hide Next, Abandoned;
    if a.Publish? {
      AbandonedPublish(c, w, a.p, a.link, w', id);
    } else {
      AbandonedOther(c, w, a, w', id);
    }
  }

  // A publication under the id would have to find its file with one link.
  lemma AbandonedPublish(c: Rules, w: World, p: nat, link: bool, w': World, id: string)
    requires Next(c, w, Publish(p, link), w') && Abandoned(w, id)
    ensures Abandoned(w', id) && w'.files[id] == w.files[id]
  {
    forall q | Inside(w', q) && Running(w', q).stage.Linked?
      ensures Target(Running(w', q).op) != Some(id)
    {
      if q != p { assert Running(w', q) == Running(w, q) && Inside(w, q); }
    }
  }

  lemma AbandonedOther(c: Rules, w: World, a: Action, w': World, id: string)
    requires Next(c, w, a, w') && Abandoned(w, id) && !a.Publish?
    ensures Abandoned(w', id) && w'.files[id] == w.files[id]
  {
    hide RequestValid, CanPublish, Finds, ReleaseChecked, ReleaseNow;
    forall q | Inside(w', q) && Running(w', q).stage.Linked?
      ensures Target(Running(w', q).op) != Some(id)
    {
      assert Running(w', q) == Running(w, q) && Inside(w, q);
    }
  }

  // When a process dies between the link that publishes its record and the
  // removal of the temporary name, that record never changes again, whatever
  // the checks are: it can be neither replaced nor released.
  lemma {:induction false} AbandonedForever(c: Rules, worlds: seq<World>, actions: seq<Action>, i: nat, j: nat, id: string)
    requires Steps(c, worlds, actions) && i <= j < |worlds| && Abandoned(worlds[i], id)
    ensures Abandoned(worlds[j], id) && worlds[j].files[id] == worlds[i].files[id]
    decreases j
  {
    hide Next, Abandoned;
    if i < j {
      var h := j - 1;
      AbandonedForever(c, worlds, actions, i, h, id);
      assert Next(c, worlds[h], actions[h], worlds[j]);
      AbandonedStep(c, worlds[h], actions[h], worlds[j], id);
    }
  }

  // The same for an archive copy: no later replacement of that generation gets
  // past it.
  ghost predicate AbandonedCopy(w: World, key: ArchiveKey) {
    && key in w.archive && w.archive[key].links != 1
    && forall p :: !(Inside(w, p) && Running(w, p).stage.ArchiveLinked?
                     && Running(w, p).stage.current.Some? && KeyOf(Running(w, p).stage.current.value) == key)
  }

  lemma AbandonedCopyStep(c: Rules, w: World, a: Action, w': World, key: ArchiveKey)
    requires Next(c, w, a, w') && AbandonedCopy(w, key)
    ensures AbandonedCopy(w', key)
    ensures !(a.Preserve? && Running(w, a.p).stage.current.Some? && KeyOf(Running(w, a.p).stage.current.value) == key)
  {
    hide RequestValid, CanPublish, Finds, ReleaseChecked, ReleaseNow;
    forall q | Inside(w', q) && Running(w', q).stage.ArchiveLinked? && Running(w', q).stage.current.Some?
      ensures KeyOf(Running(w', q).stage.current.value) != key
    {
      if Running(w', q) == Running(w, q) {
        assert Inside(w, q);
      } else {
        assert a.Preserve? && a.p == q;
      }
    }
  }

  predicate PreservesAt(w: World, a: Action, key: ArchiveKey) {
    && a.Preserve? && Inside(w, a.p) && Running(w, a.p).stage.Archiving?
    && Running(w, a.p).stage.current.Some? && KeyOf(Running(w, a.p).stage.current.value) == key
  }

  lemma {:induction false} AbandonedCopyForever(c: Rules, worlds: seq<World>, actions: seq<Action>,
                                                i: nat, j: nat, key: ArchiveKey)
    requires Steps(c, worlds, actions) && i <= j < |worlds| && AbandonedCopy(worlds[i], key)
    ensures AbandonedCopy(worlds[j], key)
    ensures j < |actions| ==> !PreservesAt(worlds[j], actions[j], key)
    decreases j
  {
    hide Next, AbandonedCopy;
    if i < j {
      var h := j - 1;
      AbandonedCopyForever(c, worlds, actions, i, h, key);
      assert Next(c, worlds[h], actions[h], worlds[j]);
      AbandonedCopyStep(c, worlds[h], actions[h], worlds[j], key);
    }
    if j < |actions| {
      var k := j + 1;
      assert Next(c, worlds[j], actions[j], worlds[k]);
      AbandonedCopyStep(c, worlds[j], actions[j], worlds[k], key);
    }
  }
}
