// What an operation can still do: when nobody is inside, a release or a
// replacement whose checks pass goes through exactly when no interrupted
// publication is in its way.
module Progress {
  import opened Commons
  import opened Records
  import opened LockRoot
  import opened Admission
  import opened AdmissionSafety
  import opened Reachability

  // ---- Reaching ----

  lemma ReachSelf(c: Rules, w: World)
    ensures Reaches(c, w, w)
  {
    assert LeadsTo(c, w, w, [w], []);
  }

  lemma ReachStep(c: Rules, w: World, middle: World, a: Action, w': World)
    requires Reaches(c, w, middle) && Next(c, middle, a, w')
    ensures Reaches(c, w, w')
  {
    hide Next;
    var worlds, actions :| LeadsTo(c, w, middle, worlds, actions);
    var ws, xs := worlds + [w'], actions + [a];
    forall i, j | 0 <= i < |xs| && j == i + 1 ensures Next(c, ws[i], xs[i], ws[j]) {
      if i < |actions| { assert Next(c, worlds[i], actions[i], worlds[j]); }
    }
    assert LeadsTo(c, w, w', ws, xs);
  }

  lemma ReachJoin(c: Rules, w: World, middle: World, w': World)
    requires Reaches(c, w, middle) && Reaches(c, middle, w')
    ensures Reaches(c, w, w')
  {
    hide Next;
    var worlds, actions :| LeadsTo(c, w, middle, worlds, actions);
    var later, more :| LeadsTo(c, middle, w', later, more);
    var ws, xs := worlds + later[1..], actions + more;
    var n := |actions|;
    assert forall k :: n <= k < |ws| ==> ws[k] == later[k - n];
    forall i, j | 0 <= i < |xs| && j == i + 1 ensures Next(c, ws[i], xs[i], ws[j]) {
      if i < n {
        assert Next(c, worlds[i], actions[i], worlds[j]);
      } else {
        var a, b := i - n, j - n;
        assert Next(c, later[a], more[a], later[b]);
      }
    }
    assert LeadsTo(c, w, w', ws, xs);
  }

  lemma {:induction false} InvReached(c: Rules, worlds: seq<World>, actions: seq<Action>, i: nat)
    requires Steps(c, worlds, actions) && Inv(c, worlds[0]) && i < |worlds|
    ensures Inv(c, worlds[i])
  {
    hide Next, Inv;
    if i > 0 {
      var h := i - 1;
      InvReached(c, worlds, actions, h);
      assert Next(c, worlds[h], actions[h], worlds[i]);
      NextKeepsInv(c, worlds[h], actions[h], worlds[i]);
    }
  }

  ghost predicate Nobody(w: World) {
    forall q :: !Inside(w, q)
  }

  // ---- Getting in and out ----

  predicate SameFiles(w: World, w': World) {
    SameRecords(w, w') && w'.archive == w.archive
  }

  // A process that takes the mutex, whatever was left of it.
  lemma EnterFresh(c: Rules, w: World, op: Operation) returns (w': World)
    requires Nobody(w) && RequestValid(c, op, w.now)
    ensures Reaches(c, w, w') && SameFiles(w, w') && Running(w', 0) == Holding(op, w.nextToken, Entered)
    ensures w'.mutex == Some(w.nextToken)
  {
    hide RequestValid, CanRead, CanPublish;
    var w1 := Move(w, 0, Idle);
    var w2 := w1.(mutex := None);
    var w3 := Move(w2, 0, Requested(op));
    w' := Move(w3.(mutex := Some(w3.nextToken), nextToken := w3.nextToken + 1), 0, Holding(op, w3.nextToken, Entered));
    ReachSelf(c, w);
    ReachStep(c, w, w, Crash(0), w1);
    forall p ensures !Inside(w1, p) {
      assert !Inside(w, p);
    }
    ReachStep(c, w, w1, ClearMutex, w2);
    ReachStep(c, w, w2, Request(0, op), w3);
    ReachStep(c, w, w3, Enter(0), w');
  }

  // The record stored whole under its id, nothing else changed but the archive,
  // and the mutex given back.
  predicate Ends(w: World, w': World, id: string, doc: Record) {
    && w'.files == w.files[id := Whole(doc)] && w'.now == w.now
    && w'.history == w.history[id := (if id in w.history then w.history[id] else []) + [doc]]
    && w'.mutex.None? && Running(w', 0) == Idle
  }

  predicate SameRecords(w: World, w': World) {
    w'.files == w.files && w'.history == w.history && w'.now == w.now
  }

  // From the last stage: one publication, then out.
  lemma PublishAndLeave(c: Rules, start: World, w: World, op: Operation, token: nat, current: Option<Record>, doc: Record)
      returns (w': World)
    requires Reaches(c, start, w) && SameRecords(start, w)
    requires Running(w, 0) == Holding(op, token, Publishing(current)) && w.mutex == Some(token)
    requires Target(op).Some? && CanPublish(c, w, op, current, doc, false)
    ensures Reaches(c, start, w') && Ends(start, w', Target(op).value, doc) && w'.archive == w.archive
  {
    hide CanPublish;
    var id := Target(op).value;
    var w1 := Move(WithRecord(w, id, doc, false), 0, Holding(op, token, Leaving));
    w' := Move(w1.(mutex := None), 0, Idle);
    assert Next(c, w, Publish(0, false), w1);
    ReachStep(c, start, w, Publish(0, false), w1);
    ReachStep(c, start, w1, Leave(0), w');
  }

  // ---- Release ----

  function Outcome(c: Rules, op: Operation, current: Record, now: int): Record
    requires op.Release?
  {
    if current.schema == V2 && op.terminal.Some? then op.terminal.value else c.legacyReleased(current, now, op.outcome)
  }

  lemma ReleaseGoesThrough(c: Rules, w: World, op: Operation, current: Record) returns (w': World)
    requires Nobody(w) && op.Release? && Finds(w.files, op.leaseId, current)
    requires ReleaseChecked(c, op, current) && ReleaseNow(c, op, current, w.now)
    ensures Reaches(c, w, w') && Ends(w, w', op.leaseId, Outcome(c, op, current, w.now))
  {
    hide ReleaseChecked, Finds;
    var w1 := EnterFresh(c, w, op);
    var w2 := Move(w1, 0, Holding(op, w.nextToken, Publishing(Some(current))));
    assert Next(c, w1, ReadCurrent(0), w2);
    ReachStep(c, w, w1, ReadCurrent(0), w2);
    assert CanPublish(c, w2, op, Some(current), Outcome(c, op, current, w.now), false) by {
      CheckedHasTerminal(c, op, current);
    }
    w' := PublishAndLeave(c, w, w2, op, w.nextToken, Some(current), Outcome(c, op, current, w.now));
  }

  lemma CheckedHasTerminal(c: Rules, op: Operation, current: Record)
    requires op.Release? && ReleaseChecked(c, op, current)
    ensures current.schema == V2 ==> op.terminal.Some?
  {
  }

  // ---- Interrupted records stay ----

  lemma FrozenRecord(c: Rules, w: World, w': World, id: string)
    requires Nobody(w) && id in w.files && w.files[id].links != 1 && Reaches(c, w, w')
    ensures id in w'.files && w'.files[id] == w.files[id]
  {
    hide Next;
    var worlds, actions :| LeadsTo(c, w, w', worlds, actions);
    AbandonedForever(c, worlds, actions, 0, |worlds| - 1, id);
  }

  predicate Holds(w: World, id: string, doc: Record) {
    id in w.files && w.files[id].content == Json(doc)
  }

  // Whose ACTIVE record stands under an id, and nobody at work.
  ghost predicate Standing(c: Rules, w: World, id: string, current: Record) {
    Inv(c, w) && Nobody(w) && Holds(w, id, current) && current.state == Active
  }

  lemma StandingIsFound(c: Rules, w: World, id: string, current: Record)
    requires Standing(c, w, id, current)
    ensures w.files[id].regular && (w.files[id].links == 1 <==> Finds(w.files, id, current))
  {
    hide Serial, Archived, NoConflict, Progress, Sound;
    assert StoredFile(w.files[id], w.history[id]);
  }

  // A release whose checks pass now can still happen exactly when the record
  // it would close has one link.
  lemma ReleasePossible(c: Rules, w: World, op: Operation, current: Record)
    requires op.Release? && Standing(c, w, op.leaseId, current)
    requires ReleaseChecked(c, op, current) && ReleaseNow(c, op, current, w.now)
    ensures (exists w' :: Reaches(c, w, w') && Holds(w', op.leaseId, Outcome(c, op, current, w.now)))
       <==> w.files[op.leaseId].links == 1
  {
    hide Reaches, ReleaseChecked, ReleaseNow;
    StandingIsFound(c, w, op.leaseId, current);
    if w.files[op.leaseId].links == 1 {
      var w' := ReleaseGoesThrough(c, w, op, current);
      assert Reaches(c, w, w') && Holds(w', op.leaseId, Outcome(c, op, current, w.now));
    } else {
      OutcomeIsReleased(c, w, op, current);
      forall w' | Reaches(c, w, w') ensures !Holds(w', op.leaseId, Outcome(c, op, current, w.now)) {
        FrozenRecord(c, w, w', op.leaseId);
      }
    }
  }

  lemma OutcomeIsReleased(c: Rules, w: World, op: Operation, current: Record)
    requires Sound(c) && op.Release? && ReleaseChecked(c, op, current)
    ensures Outcome(c, op, current, w.now).state == Released
  {
    if current.schema == V2 {
      assert c.closes(op.terminal.value, current, op.leaseId, op.expected);
    } else {
      assert SameLine(current, c.legacyReleased(current, w.now, op.outcome));
    }
  }

  // ---- Scanning ----

  // Every file still to be compared lets the candidate pass.
  ghost predicate AllPass(c: Rules, w: World, candidate: Record, ids: set<string>) {
    forall id <- ids :: id in w.files && c.passes(candidate, w.files, id, w.now)
  }

  lemma {:induction false} ScanAll(c: Rules, start: World, w: World, op: Operation, token: nat,
                                   current: Option<Record>, todo: set<string>) returns (w': World)
    requires Reaches(c, start, w) && !op.Release?
    requires Running(w, 0) == Holding(op, token, Scanning(current, todo)) && AllPass(c, w, op.candidate, todo)
    ensures Reaches(c, start, w') && SameFiles(w, w') && w'.mutex == w.mutex
    ensures Running(w', 0) == Holding(op, token, Scanning(current, {}))
    decreases |todo|
  {
    hide Reaches, CanRead, CanPublish, RequestValid;
    if todo == {} {
      w' := w;
    } else {
      var id :| id in todo;
      var w1 := Move(w, 0, Holding(op, token, Scanning(current, todo - {id})));
      assert Next(c, w, ScanFile(0, id), w1);
      ReachStep(c, start, w, ScanFile(0, id), w1);
      w' := ScanAll(c, start, w1, op, token, current, todo - {id});
    }
  }

  // ---- Acquisition ----

  // With nobody inside, any valid, unexpired first candidate that every file
  // lets pass can be published, whatever is stored already.
  lemma AcquisitionCompletes(c: Rules, w: World, candidate: Record) returns (w': World)
    requires Inv(c, w) && Nobody(w) && c.acquires(candidate) && c.unexpired(candidate, w.now)
    requires AllPass(c, w, candidate, w.files.Keys)
    ensures Reaches(c, w, w') && candidate.leaseId.Some? && Ends(w, w', candidate.leaseId.value, candidate)
    ensures w'.archive == w.archive
  {
    hide Reaches, CanPublish, Inv;
    var before := AcquisitionReady(c, w, candidate);
    var op := Acquire(candidate);
    assert CanPublish(c, before, op, None, candidate, false) by {
      CanPublishNew(c, w, before, candidate);
    }
    w' := PublishAndLeave(c, w, before, op, w.nextToken, None, candidate);
  }

  lemma AcquisitionReady(c: Rules, w: World, candidate: Record) returns (w': World)
    requires Inv(c, w) && Nobody(w) && c.acquires(candidate) && c.unexpired(candidate, w.now)
    requires AllPass(c, w, candidate, w.files.Keys)
    ensures Reaches(c, w, w') && SameFiles(w, w') && w'.mutex == Some(w.nextToken) && candidate.leaseId.Some?
    ensures Running(w', 0) == Holding(Acquire(candidate), w.nextToken, Publishing(None))
  {
    hide Reaches, CanPublish, Serial, Data, Progress;
    assert Sound(c);
    var op := Acquire(candidate);
    var w1 := EnterFresh(c, w, op);
    var w2 := Move(w1, 0, Holding(op, w.nextToken, Scanning(None, w.files.Keys)));
    assert Next(c, w1, ReadCurrent(0), w2);
    ReachStep(c, w, w1, ReadCurrent(0), w2);
    var w3 := ScanAll(c, w, w2, op, w.nextToken, None, w.files.Keys);
    w' := Move(w3, 0, Holding(op, w.nextToken, Publishing(None)));
    assert Next(c, w3, FinishScan(0), w');
    ReachStep(c, w, w3, FinishScan(0), w');
  }

  lemma CanPublishNew(c: Rules, w: World, before: World, candidate: Record)
    requires Inv(c, w) && SameFiles(w, before) && candidate.leaseId.Some? && c.unexpired(candidate, w.now)
    requires AllPass(c, w, candidate, w.files.Keys)
    ensures forall link :: CanPublish(c, before, Acquire(candidate), None, candidate, link)
  {
    hide Serial, Data, Progress;
    var id := candidate.leaseId.value;
    assert id in w.files ==> c.passes(candidate, w.files, id, w.now);
  }

  // The process may also die right after linking the record in.
  lemma AcquisitionCanBeAbandoned(c: Rules, w: World, candidate: Record) returns (w': World)
    requires Inv(c, w) && Nobody(w) && c.acquires(candidate) && c.unexpired(candidate, w.now)
    requires AllPass(c, w, candidate, w.files.Keys)
    ensures Reaches(c, w, w') && candidate.leaseId.Some?
    ensures Nobody(w') && Holds(w', candidate.leaseId.value, candidate) && Abandoned(w', candidate.leaseId.value)
    ensures w'.files == w.files[candidate.leaseId.value := Published(candidate, true)]
  {
    hide Reaches, CanPublish, Inv;
    var before := AcquisitionReady(c, w, candidate);
    assert Serial(before) by { SerialReached(c, w, before); }
    var op, id := Acquire(candidate), candidate.leaseId.value;
    CanPublishNew(c, w, before, candidate);
    var linked := Move(WithRecord(before, id, candidate, true), 0, Holding(op, w.nextToken, Linked));
    w' := Move(linked, 0, Idle);
    assert Next(c, before, Publish(0, true), linked);
    ReachStep(c, w, before, Publish(0, true), linked);
    ReachStep(c, w, linked, Crash(0), w');
    forall p ensures !Inside(w', p) {
      if p != 0 {
        assert Running(w', p) == Running(before, p);
        assert Inside(before, 0) && (Inside(before, p) ==> p == 0);
      }
    }
  }

  lemma SerialReached(c: Rules, w: World, w': World)
    requires Inv(c, w) && Reaches(c, w, w')
    ensures Inv(c, w') && Serial(w')
  {
    hide Next, Data, Progress, Serial;
    var worlds, actions :| LeadsTo(c, w, w', worlds, actions);
    InvReached(c, worlds, actions, |worlds| - 1);
  }

  // ---- Replacement ----

  // No interrupted archive copy of the current record is in the way.
  predicate ArchiveOpen(w: World, current: Record) {
    current.schema == V2 && KeyOf(current) in w.archive ==> w.archive[KeyOf(current)].links == 1
  }

  ghost predicate ReplaceReady(c: Rules, w: World, id: string, candidate: Record, expected: int, current: Record) {
    && Standing(c, w, id, current) && candidate.leaseId == Some(id)
    && c.requests(candidate) && c.succeeds(candidate, current, expected)
    && AllPass(c, w, candidate, w.files.Keys - {id})
  }

  lemma ReplaceScanned(c: Rules, w: World, id: string, candidate: Record, expected: int, current: Record)
      returns (w': World)
    requires ReplaceReady(c, w, id, candidate, expected, current) && w.files[id].links == 1
    ensures Reaches(c, w, w') && SameFiles(w, w') && w'.mutex == Some(w.nextToken)
    ensures var op := Replace(candidate, expected);
      Running(w', 0) == Holding(op, w.nextToken,
        if current.schema == V2 then Archiving(Some(current)) else Publishing(Some(current)))
  {
    hide Reaches, CanPublish, Inv, Finds;
    StandingIsFound(c, w, id, current);
    var op := Replace(candidate, expected);
    var w1 := EnterFresh(c, w, op);
    var w2 := Move(w1, 0, Holding(op, w.nextToken, Scanning(Some(current), w.files.Keys - {id})));
    assert Next(c, w1, ReadCurrent(0), w2);
    ReachStep(c, w, w1, ReadCurrent(0), w2);
    var w3 := ScanAll(c, w, w2, op, w.nextToken, Some(current), w.files.Keys - {id});
    w' := Move(w3, 0, Holding(op, w.nextToken,
      if current.schema == V2 then Archiving(Some(current)) else Publishing(Some(current))));
    assert Next(c, w3, FinishScan(0), w');
    ReachStep(c, w, w3, FinishScan(0), w');
  }

  lemma ReplaceGoesThrough(c: Rules, w: World, id: string, candidate: Record, expected: int, current: Record)
      returns (w': World)
    requires ReplaceReady(c, w, id, candidate, expected, current)
    requires w.files[id].links == 1 && ArchiveOpen(w, current)
    ensures Reaches(c, w, w') && Ends(w, w', id, candidate)
  {
    hide Reaches, CanPublish, Inv, Finds;
    StandingIsFound(c, w, id, current);
    var op, token := Replace(candidate, expected), w.nextToken;
    var ready := ReplaceScanned(c, w, id, candidate, expected, current);
    if current.schema == V2 {
      ready := PreserveOne(c, w, ready, op, token, id, current);
    }
    assert CanPublish(c, ready, op, Some(current), candidate, false) by {
      ReplacePublishes(c, ready, candidate, expected, current);
    }
    w' := PublishAndLeave(c, w, ready, op, token, Some(current), candidate);
  }

  lemma ReplacePublishes(c: Rules, w: World, candidate: Record, expected: int, current: Record)
    requires candidate.leaseId.Some? && Finds(w.files, candidate.leaseId.value, current)
    ensures CanPublish(c, w, Replace(candidate, expected), Some(current), candidate, false)
  {
  }

  lemma PreserveOne(c: Rules, start: World, w: World, op: Operation, token: nat, id: string, current: Record)
      returns (w': World)
    requires Standing(c, start, id, current) && Reaches(c, start, w) && SameFiles(start, w)
    requires current.schema == V2 && ArchiveOpen(start, current)
    requires Running(w, 0) == Holding(op, token, Archiving(Some(current)))
    ensures Reaches(c, start, w') && SameRecords(start, w') && w'.mutex == w.mutex
    ensures Running(w', 0) == Holding(op, token, Publishing(Some(current)))
  {
    hide Reaches, Inv;
    var key := KeyOf(current);
    CopyMatches(c, start, id, current);
    w' := Move(if key in w.archive then w else w.(archive := w.archive[key := Published(current, false)]), 0,
               Holding(op, token, Publishing(Some(current))));
    assert Next(c, w, Preserve(0, false), w');
    ReachStep(c, start, w, Preserve(0, false), w');
  }

  // An archive copy under the current record's own key is a copy of it.
  lemma CopyMatches(c: Rules, w: World, id: string, current: Record)
    requires Standing(c, w, id, current)
    ensures id in w.history && w.history[id] != [] && Last(w.history[id]) == current
    ensures KeyOf(current) == (id, |w.history[id]|) && current.leaseId == Some(id)
    ensures KeyOf(current) in w.archive ==>
      w.archive[KeyOf(current)].regular && w.archive[KeyOf(current)].content == Json(current)
      && w.archive[KeyOf(current)].links in {1, 2}
  {
    hide Serial, Progress, NoConflict, IdsDistinct;
    var h := w.history[id];
    assert StoredFile(w.files[id], h);
    LegalFacts(c, id, h, w.now, |h| - 1);
    if KeyOf(current) in w.archive { assert ArchivedCopy(w, id, |h|); }
  }

  lemma ReplacementGenerations(c: Rules, candidate: Record, current: Record, expected: int)
    requires Sound(c) && c.succeeds(candidate, current, expected)
    ensures candidate.state == Active && candidate.generation == current.generation + 1
  {
    assert SameLine(current, candidate);
  }

  // While its archive copy is abandoned, the record can only be released.
  ghost predicate StuckOrReleased(w: World, id: string, h: seq<Record>) {
    && h != [] && id in w.history
    && (w.history[id] == h || (|w.history[id]| > |h| && Last(w.history[id]).state == Released))
  }

  lemma StuckStep(c: Rules, w: World, a: Action, w': World, id: string, h: seq<Record>)
    requires Inv(c, w) && Next(c, w, a, w') && StuckOrReleased(w, id, h)
    requires Last(h).schema == V2 && AbandonedCopy(w, (id, |h|))
    ensures StuckOrReleased(w', id, h)
  {
    hide Next, Inv, AbandonedCopy;
    if a.Publish? {
      StuckPublish(c, w, a.p, a.link, w', id, h);
    } else {
      OnlyPublishPublishes(c, w, a, w');
    }
  }

  lemma StuckPublish(c: Rules, w: World, p: nat, link: bool, w': World, id: string, h: seq<Record>)
    requires Inv(c, w) && Next(c, w, Publish(p, link), w') && StuckOrReleased(w, id, h)
    requires Last(h).schema == V2 && AbandonedCopy(w, (id, |h|))
    ensures StuckOrReleased(w', id, h)
  {
    hide Serial, Archived, NoConflict, IdsDistinct, LegalStep, StageOk, CanPublish, Sound, RequestValid, CanRead;
    var before := Running(w, p);
    var target := Target(before.op).value;
    var process := before.(stage := if link then Linked else Leaving);
    var doc :| CanPublish(c, w, before.op, before.stage.current, doc, link)
      && w' == Move(WithRecord(w, target, doc, link), p, process);
    if target == id {
      assert ProcessOk(c, w.files, w.archive, before);
      StuckTarget(c, w, before.op, before.stage.current, doc, link, id, h);
    }
  }

  // What a publication under the stuck id must be.
  lemma StuckTarget(c: Rules, w: World, op: Operation, current: Option<Record>, doc: Record, link: bool,
                    id: string, h: seq<Record>)
    requires Sound(c) && Data(c, w) && StuckOrReleased(w, id, h) && Last(h).schema == V2
    requires (id, |h|) in w.archive && w.archive[(id, |h|)].links != 1
    requires Target(op) == Some(id) && CanPublish(c, w, op, current, doc, link)
    requires StageOk(c, w.files, w.archive, op, Publishing(current))
    ensures id in w.history && w.history[id] == h && doc.state == Released
  {
    hide Archived, NoConflict, IdsDistinct, LegalStep;
    assert id in w.files;
    FoundIsLast(c, w, id, current.value);
    if op.Replace? {
      ReplacingFacts(c, w.files, op.candidate, op.expected, current);
    } else {
      PublishedStep(c, w, op, current, doc, link);
    }
  }

  lemma {:induction false} StuckAlong(c: Rules, worlds: seq<World>, actions: seq<Action>, i: nat, id: string, h: seq<Record>)
    requires Steps(c, worlds, actions) && Inv(c, worlds[0]) && i < |worlds|
    requires StuckOrReleased(worlds[0], id, h) && Last(h).schema == V2 && AbandonedCopy(worlds[0], (id, |h|))
    ensures StuckOrReleased(worlds[i], id, h) && Inv(c, worlds[i])
  {
    hide Next, Inv, AbandonedCopy, StuckOrReleased;
    if i > 0 {
      var k := i - 1;
      StuckAlong(c, worlds, actions, k, id, h);
      AbandonedCopyForever(c, worlds, actions, 0, k, (id, |h|));
      assert Next(c, worlds[k], actions[k], worlds[i]);
      StuckStep(c, worlds[k], actions[k], worlds[i], id, h);
      NextKeepsInv(c, worlds[k], actions[k], worlds[i]);
    }
  }

  lemma StuckNeverReplaced(c: Rules, w: World, w': World, id: string, candidate: Record, expected: int, current: Record)
    requires ReplaceReady(c, w, id, candidate, expected, current) && !ArchiveOpen(w, current) && Reaches(c, w, w')
    ensures !Holds(w', id, candidate)
  {
    hide Next, Serial, Archived, NoConflict, IdsDistinct, Progress, Sound, AllPass, AbandonedCopy, Legal;
    CopyMatches(c, w, id, current);
    ReplacementGenerations(c, candidate, current, expected);
    var h := w.history[id];
    NobodyAbandons(w, (id, |h|));
    var worlds, actions :| LeadsTo(c, w, w', worlds, actions);
    StuckAlong(c, worlds, actions, |worlds| - 1, id, h);
    if id in w'.files {
      assert StoredFile(w'.files[id], w'.history[id]);
    }
  }

  lemma NobodyAbandons(w: World, key: ArchiveKey)
    requires Nobody(w) && key in w.archive && w.archive[key].links != 1
    ensures AbandonedCopy(w, key)
  {
  }

  // A replacement whose checks pass now can still happen exactly when the
  // record it would replace has one link and its archive copy is not abandoned.
  lemma ReplacementPossible(c: Rules, w: World, id: string, candidate: Record, expected: int, current: Record)
    requires ReplaceReady(c, w, id, candidate, expected, current)
    ensures (exists w' :: Reaches(c, w, w') && Holds(w', id, candidate))
       <==> w.files[id].links == 1 && ArchiveOpen(w, current)
  {
    hide Reaches, Inv, AllPass;
    if w.files[id].links == 1 && ArchiveOpen(w, current) {
      var w' := ReplaceGoesThrough(c, w, id, candidate, expected, current);
      assert Reaches(c, w, w') && Holds(w', id, candidate);
    } else {
      assert Sound(c) by { SoundOf(c, w); }
      ReplacementGenerations(c, candidate, current, expected);
      forall w' | Reaches(c, w, w') ensures !Holds(w', id, candidate) {
        if w.files[id].links != 1 {
          FrozenRecord(c, w, w', id);
        } else {
          StuckNeverReplaced(c, w, w', id, candidate, expected, current);
        }
      }
    }
  }

  lemma SoundOf(c: Rules, w: World)
    requires Inv(c, w)
    ensures Sound(c)
  {
  }

  // The process may die right after linking the archive copy in.
  lemma ReplacementCanBeAbandoned(c: Rules, w: World, id: string, candidate: Record, expected: int, current: Record)
      returns (w': World)
    requires ReplaceReady(c, w, id, candidate, expected, current) && w.files[id].links == 1
    requires current.schema == V2 && KeyOf(current) !in w.archive
    ensures Reaches(c, w, w') && Nobody(w') && Holds(w', id, current) && AbandonedCopy(w', KeyOf(current))
  {
    hide Reaches, Inv, AllPass, CanPublish;
    var op, key := Replace(candidate, expected), KeyOf(current);
    var ready := ReplaceScanned(c, w, id, candidate, expected, current);
    SerialReached(c, w, ready);
    var linked := Move(ready.(archive := ready.archive[key := Published(current, true)]), 0,
                       Holding(op, w.nextToken, ArchiveLinked(Some(current))));
    w' := Move(linked, 0, Idle);
    assert Next(c, ready, Preserve(0, true), linked);
    ReachStep(c, w, ready, Preserve(0, true), linked);
    ReachStep(c, w, linked, Crash(0), w');
    forall p ensures !Inside(w', p) {
      if p != 0 {
        assert Running(w', p) == Running(ready, p);
        assert Inside(ready, 0) && (Inside(ready, p) ==> p == 0);
      }
    }
  }

  // ---- In every state of every run ----

  lemma FreeMutexNobody(c: Rules, w: World)
    requires Inv(c, w) && w.mutex.None?
    ensures Nobody(w)
  {
    hide Data, Progress;
  }

  // The same at any moment of a run with the real checks, when nobody is inside.
  lemma ReleaseInRun(c: Context, worlds: seq<World>, actions: seq<Action>, i: nat, op: Operation, current: Record)
    requires IsRun(c, worlds, actions) && i < |worlds| && Nobody(worlds[i]) && op.Release?
    requires Holds(worlds[i], op.leaseId, current) && current.state == Active
    requires ReleaseChecked(RulesOf(c), op, current) && ReleaseNow(RulesOf(c), op, current, worlds[i].now)
    ensures (exists w' :: Reaches(RulesOf(c), worlds[i], w')
                       && Holds(w', op.leaseId, Outcome(RulesOf(c), op, current, worlds[i].now)))
       <==> worlds[i].files[op.leaseId].links == 1
  {
    hide RulesOf, Inv, Reaches, ReleaseChecked, ReleaseNow;
    RulesAreSound(c);
    RunInv(RulesOf(c), worlds, actions, i);
    ReleasePossible(RulesOf(c), worlds[i], op, current);
  }

  lemma ReplacementInRun(c: Context, worlds: seq<World>, actions: seq<Action>, i: nat,
                         id: string, candidate: Record, expected: int, current: Record)
    requires IsRun(c, worlds, actions) && i < |worlds| && Nobody(worlds[i])
    requires Holds(worlds[i], id, current) && current.state == Active && candidate.leaseId == Some(id)
    requires RulesOf(c).requests(candidate) && RulesOf(c).succeeds(candidate, current, expected)
    requires AllPass(RulesOf(c), worlds[i], candidate, worlds[i].files.Keys - {id})
    ensures (exists w' :: Reaches(RulesOf(c), worlds[i], w') && Holds(w', id, candidate))
       <==> worlds[i].files[id].links == 1 && ArchiveOpen(worlds[i], current)
  {
    hide RulesOf, Inv, Reaches, AllPass;
    RulesAreSound(c);
    RunInv(RulesOf(c), worlds, actions, i);
    ReplacementPossible(RulesOf(c), worlds[i], id, candidate, expected, current);
  }
}
