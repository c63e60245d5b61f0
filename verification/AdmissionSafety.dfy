// What every step of the admission protocol keeps.
module AdmissionSafety {
  import opened Commons
  import opened Text
  import opened Records
  import opened LockRoot
  import opened Admission

  // ---- The invariant ----

  // At most one process is inside, and the mutex is the one it created.
  ghost predicate Serial(w: World) {
    && (forall p, q :: Inside(w, p) && Inside(w, q) ==> p == q)
    && (forall p :: Inside(w, p) ==> w.mutex == Some(Running(w, p).token))
  }

  predicate StoredFile(entry: Entry, h: seq<Record>)
    requires h != []
  {
    && entry.regular && entry.content == Json(Last(h))
    && (entry.links == 1 || (entry.links == 2 && |h| == 1))
  }

  // Every file holds the last record of a legal history.
  ghost predicate Stored(c: Rules, w: World) {
    && w.history.Keys == w.files.Keys
    && forall id <- w.files :: Legal(c, id, w.history[id], w.now) && StoredFile(w.files[id], w.history[id])
  }

  ghost predicate IdsDistinct(files: Files) {
    forall a, b :: a in files && b in files && Fold(a) == Fold(b) ==> a == b
  }

  ghost predicate NoConflict(c: Rules, files: Files) {
    forall a, b :: ActiveFile(files, a) && ActiveFile(files, b) && a != b ==>
      !c.conflicts(files[a].content.doc, files[b].content.doc)
  }

  // How many records of a history must already have been preserved.
  function Replacements(h: seq<Record>): int
    requires h != []
  {
    if Last(h).state == Active then |h| - 1 else |h| - 2
  }

  predicate ArchivedCopy(w: World, id: string, k: int) {
    && id in w.history && w.history[id] != [] && w.history[id][0].schema == V2
    && 1 <= k <= |w.history[id]| && w.history[id][k - 1].state == Active
    && (id, k) in w.archive
    && w.archive[(id, k)].regular && w.archive[(id, k)].content == Json(w.history[id][k - 1])
    && w.archive[(id, k)].links in {1, 2}
  }

  // The archive holds copies of published records only, and every replaced one.
  ghost predicate Archived(w: World) {
    && (forall id, k :: (id, k) in w.archive ==> ArchivedCopy(w, id, k))
    && (forall id, k :: (id in w.history && w.history[id] != [] && w.history[id][0].schema == V2
                         && 1 <= k <= Replacements(w.history[id])) ==>
          ArchivedCopy(w, id, k) && w.archive[(id, k)].links == 1)
  }

  // The candidate clears one file: no conflict with an ACTIVE record, another id.
  ghost predicate Clear(c: Rules, files: Files, candidate: Record, id: string) {
    && candidate.leaseId.Some? && Fold(candidate.leaseId.value) != Fold(id)
    && (ActiveFile(files, id) ==> !c.conflicts(candidate, files[id].content.doc))
  }

  ghost predicate ClearOf(c: Rules, files: Files, candidate: Record, ids: set<string>) {
    forall id <- ids :: Clear(c, files, candidate, id)
  }

  ghost predicate OperationOk(c: Rules, op: Operation) {
    op.Acquire? ==> c.acquires(op.candidate)
  }

  predicate Preserved(archive: map<ArchiveKey, Entry>, current: Record) {
    KeyOf(current) in archive && archive[KeyOf(current)] == Whole(current)
  }

  ghost predicate AcquireOk(c: Rules, files: Files, candidate: Record, stage: Stage) {
    match stage
    case Scanning(current, todo) =>
      current.None? && todo <= files.Keys && ClearOf(c, files, candidate, files.Keys - todo)
    case Publishing(current) => current.None? && ClearOf(c, files, candidate, files.Keys)
    case Archiving(_) => false
    case ArchiveLinked(_) => false
    case Linked => candidate.leaseId.Some? && candidate.leaseId.value in files
    case _ => true
  }

  ghost predicate Replacing(c: Rules, files: Files, candidate: Record, expected: int, current: Option<Record>) {
    && candidate.leaseId.Some? && current.Some? && Finds(files, candidate.leaseId.value, current.value)
    && c.succeeds(candidate, current.value, expected)
  }

  ghost predicate ReplaceOk(c: Rules, files: Files, archive: map<ArchiveKey, Entry>,
                            candidate: Record, expected: int, stage: Stage) {
    match stage
    case Scanning(current, todo) =>
      && Replacing(c, files, candidate, expected, current)
      && ClearOf(c, files, candidate, files.Keys - {candidate.leaseId.value} - todo)
    case Archiving(current) =>
      && Replacing(c, files, candidate, expected, current) && current.value.schema == V2
      && ClearOf(c, files, candidate, files.Keys - {candidate.leaseId.value})
    case ArchiveLinked(current) =>
      && Replacing(c, files, candidate, expected, current) && current.value.schema == V2
      && ClearOf(c, files, candidate, files.Keys - {candidate.leaseId.value})
      && KeyOf(current.value) in archive
    case Publishing(current) =>
      && Replacing(c, files, candidate, expected, current)
      && ClearOf(c, files, candidate, files.Keys - {candidate.leaseId.value})
      && (current.value.schema == V2 ==> Preserved(archive, current.value))
    case Linked => false
    case _ => true
  }

  ghost predicate ReleaseOk(c: Rules, files: Files, op: Operation, stage: Stage)
    requires op.Release?
  {
    match stage
    case Publishing(current) =>
      && current.Some? && Finds(files, op.leaseId, current.value)
      && ReleaseChecked(c, op, current.value)
    case Entered => true
    case Leaving => true
    case _ => false
  }

  ghost predicate StageOk(c: Rules, files: Files, archive: map<ArchiveKey, Entry>, op: Operation, stage: Stage) {
    match op
    case Acquire(candidate) => AcquireOk(c, files, candidate, stage)
    case Replace(candidate, expected) => ReplaceOk(c, files, archive, candidate, expected, stage)
    case Release(_, _, _, _) => ReleaseOk(c, files, op, stage)
  }

  ghost predicate ProcessOk(c: Rules, files: Files, archive: map<ArchiveKey, Entry>, process: Process) {
    match process
    case Idle => true
    case Requested(op) => OperationOk(c, op)
    case Holding(op, _, stage) => OperationOk(c, op) && StageOk(c, files, archive, op, stage)
  }

  ghost predicate Progress(c: Rules, w: World) {
    forall p :: ProcessOk(c, w.files, w.archive, Running(w, p))
  }

  ghost predicate Data(c: Rules, w: World) {
    Stored(c, w) && IdsDistinct(w.files) && NoConflict(c, w.files) && Archived(w)
  }

  ghost predicate Inv(c: Rules, w: World) {
    Sound(c) && Serial(w) && Data(c, w) && Progress(c, w)
  }

  lemma InitialInv(c: Rules, w: World)
    requires Sound(c) && Initial(w)
    ensures Inv(c, w)
  {
  }

  // ---- Steps that leave files, archive and history alone ----

  predicate SameData(w: World, w': World) {
    w'.files == w.files && w'.archive == w.archive && w'.history == w.history && w.now <= w'.now
  }

  lemma SameDataKeeps(c: Rules, w: World, w': World)
    requires Data(c, w) && SameData(w, w')
    ensures Data(c, w')
  {
    forall id <- w'.files ensures Legal(c, id, w'.history[id], w'.now) && StoredFile(w'.files[id], w'.history[id]) {
      LegalLater(c, id, w.history[id], w.now, w'.now);
    }
    assert Archived(w') by {
      forall id, k | (id, k) in w'.archive ensures ArchivedCopy(w', id, k) {
        assert ArchivedCopy(w, id, k);
      }
      forall id, k | id in w'.history && w'.history[id] != [] && w'.history[id][0].schema == V2
          && 1 <= k <= Replacements(w'.history[id])
        ensures ArchivedCopy(w', id, k) && w'.archive[(id, k)].links == 1
      {
        assert ArchivedCopy(w, id, k);
      }
    }
  }

  // One process moves; the rest of the invariant follows from its new state.
  lemma MoveKeeps(c: Rules, w: World, p: nat, process: Process, w': World)
    requires Inv(c, w) && SameData(w, w') && w'.processes == w.processes[p := process]
    requires ProcessOk(c, w.files, w.archive, process) && Serial(w')
    ensures Inv(c, w')
  {
    SameDataKeeps(c, w, w');
    forall q ensures ProcessOk(c, w'.files, w'.archive, Running(w', q)) {
      assert q != p ==> Running(w', q) == Running(w, q);
    }
  }

  // A process that was inside and stays inside, or leaves, keeps the mutex serial.
  lemma SerialStay(w: World, p: nat, process: Process, w': World)
    requires Serial(w) && Inside(w, p) && w'.mutex == w.mutex && w'.processes == w.processes[p := process]
    requires process.Holding? ==> process.token == Running(w, p).token
    ensures Serial(w')
  {
    forall q ensures Running(w', q) == if q == p then process else Running(w, q)
             ensures Inside(w', q) ==> Inside(w, q)
    {
    }
  }

  lemma SerialOutside(w: World, p: nat, process: Process, w': World)
    requires Serial(w) && w'.mutex == w.mutex && w'.processes == w.processes[p := process]
    requires !process.Holding?
    ensures Serial(w')
  {
    forall q ensures Running(w', q) == if q == p then process else Running(w, q)
             ensures Inside(w', q) ==> Inside(w, q)
    {
    }
  }

  lemma SameProcesses(c: Rules, w: World, w': World)
    requires Progress(c, w) && w'.processes == w.processes && w'.files == w.files && w'.archive == w.archive
    requires Serial(w) && (w'.mutex == w.mutex || forall p :: !Inside(w, p))
    ensures Progress(c, w') && Serial(w')
  {
    forall p ensures Inside(w', p) == Inside(w, p) && ProcessOk(c, w'.files, w'.archive, Running(w', p)) {
      assert Running(w', p) == Running(w, p);
      assert ProcessOk(c, w.files, w.archive, Running(w, p));
    }
  }

  lemma KeepsTick(c: Rules, w: World, delta: nat, w': World)
    requires Inv(c, w) && Next(c, w, Tick(delta), w')
    ensures Inv(c, w')
  {
    SameDataKeeps(c, w, w');
    SameProcesses(c, w, w');
  }

  lemma KeepsClear(c: Rules, w: World, w': World)
    requires Inv(c, w) && Next(c, w, ClearMutex, w')
    ensures Inv(c, w')
  {
    SameDataKeeps(c, w, w');
    SameProcesses(c, w, w');
  }

  lemma KeepsRequest(c: Rules, w: World, p: nat, op: Operation, w': World)
    requires Inv(c, w) && Next(c, w, Request(p, op), w')
    ensures Inv(c, w')
  {
    SerialOutside(w, p, Requested(op), w');
    MoveKeeps(c, w, p, Requested(op), w');
  }

  lemma KeepsEnter(c: Rules, w: World, p: nat, w': World)
    requires Inv(c, w) && Next(c, w, Enter(p), w')
    ensures Inv(c, w')
  {
    var process := Holding(Running(w, p).op, w.nextToken, Entered);
    assert forall q :: !Inside(w, q);
    forall q ensures Running(w', q) == if q == p then process else Running(w, q) {
    }
    assert OperationOk(c, Running(w, p).op) by {
      assert ProcessOk(c, w.files, w.archive, Running(w, p));
    }
    MoveKeeps(c, w, p, process, w');
  }

  lemma KeepsRead(c: Rules, w: World, p: nat, w': World)
    requires Inv(c, w) && Next(c, w, ReadCurrent(p), w')
    ensures Inv(c, w')
  {
    var process := Running(w', p);
    var op := Running(w, p).op;
    assert ProcessOk(c, w.files, w.archive, Running(w, p));
    assert process.op == op && process.token == Running(w, p).token;
    ReadOk(c, w, op, process.stage);
    SerialStay(w, p, process, w');
    MoveKeeps(c, w, p, process, w');
  }

  lemma ReadOk(c: Rules, w: World, op: Operation, stage: Stage)
    requires CanRead(c, w, op, stage)
    ensures StageOk(c, w.files, w.archive, op, stage)
  {
    match op
    case Acquire(candidate) => assert w.files.Keys - w.files.Keys == {};
    case Replace(candidate, expected) =>
      assert w.files.Keys - {candidate.leaseId.value} - stage.todo == {};
    case Release(_, _, _, _) =>
  }

  lemma ScanOk(c: Rules, files: Files, archive: map<ArchiveKey, Entry>, op: Operation, stage: Stage, id: string)
    requires !op.Release? && stage.Scanning? && id in stage.todo
    requires StageOk(c, files, archive, op, stage) && Clear(c, files, op.candidate, id)
    ensures StageOk(c, files, archive, op, stage.(todo := stage.todo - {id}))
  {
    var rest := stage.todo - {id};
    if op.Acquire? {
      ClearMore(c, files, op.candidate, files.Keys - stage.todo, id, files.Keys - rest);
    } else {
      var own := {op.candidate.leaseId.value};
      ClearMore(c, files, op.candidate, files.Keys - own - stage.todo, id, files.Keys - own - rest);
    }
  }

  lemma ClearMore(c: Rules, files: Files, candidate: Record, ids: set<string>, id: string, more: set<string>)
    requires ClearOf(c, files, candidate, ids) && Clear(c, files, candidate, id) && more <= ids + {id}
    ensures ClearOf(c, files, candidate, more)
  {
  }

  lemma KeepsScan(c: Rules, w: World, p: nat, id: string, w': World)
    requires Inv(c, w) && Next(c, w, ScanFile(p, id), w')
    ensures Inv(c, w')
  {
    var before := Running(w, p);
    assert ProcessOk(c, w.files, w.archive, before);
    IdKnown(c, w.files, w.archive, before.op, before.stage);
    assert StoredFile(w.files[id], w.history[id]);
    assert Clear(c, w.files, before.op.candidate, id);
    ScanOk(c, w.files, w.archive, before.op, before.stage, id);
    var process := before.(stage := before.stage.(todo := before.stage.todo - {id}));
    SerialStay(w, p, process, w');
    MoveKeeps(c, w, p, process, w');
  }

  lemma IdKnown(c: Rules, files: Files, archive: map<ArchiveKey, Entry>, op: Operation, stage: Stage)
    requires Sound(c) && !op.Release? && stage.Scanning?
    requires OperationOk(c, op) && StageOk(c, files, archive, op, stage)
    ensures op.candidate.leaseId.Some?
  {
  }

  lemma FinishOk(c: Rules, files: Files, archive: map<ArchiveKey, Entry>, op: Operation, stage: Stage)
    requires stage.Scanning? && stage.todo == {} && StageOk(c, files, archive, op, stage)
    ensures StageOk(c, files, archive, op,
      if Preserves(op, stage.current) then Archiving(stage.current) else Publishing(stage.current))
  {
    match op
    case Acquire(candidate) => assert files.Keys - stage.todo == files.Keys;
    case Replace(candidate, _) =>
      assert files.Keys - {candidate.leaseId.value} - stage.todo == files.Keys - {candidate.leaseId.value};
  }

  lemma KeepsFinish(c: Rules, w: World, p: nat, w': World)
    requires Inv(c, w) && Next(c, w, FinishScan(p), w')
    ensures Inv(c, w')
  {
    var before := Running(w, p);
    var current := before.stage.current;
    var process := before.(stage :=
      if Preserves(before.op, current) then Archiving(current) else Publishing(current));
    assert ProcessOk(c, w.files, w.archive, before);
    FinishOk(c, w.files, w.archive, before.op, before.stage);
    SerialStay(w, p, process, w');
    MoveKeeps(c, w, p, process, w');
  }

  lemma KeepsFail(c: Rules, w: World, p: nat, w': World)
    requires Inv(c, w) && Next(c, w, Fail(p), w')
    ensures Inv(c, w')
  {
    assert ProcessOk(c, w.files, w.archive, Running(w, p));
    if Inside(w, p) {
      var process := Running(w, p).(stage := Leaving);
      SerialStay(w, p, process, w');
      MoveKeeps(c, w, p, process, w');
    } else {
      SerialOutside(w, p, Idle, w');
      MoveKeeps(c, w, p, Idle, w');
    }
  }

  lemma KeepsCrash(c: Rules, w: World, p: nat, w': World)
    requires Inv(c, w) && Next(c, w, Crash(p), w')
    ensures Inv(c, w')
  {
    SerialOutside(w, p, Idle, w');
    MoveKeeps(c, w, p, Idle, w');
  }

  lemma KeepsLeave(c: Rules, w: World, p: nat, w': World)
    requires Inv(c, w) && Next(c, w, Leave(p), w')
    ensures Inv(c, w')
  {
    forall q ensures Running(w', q) == if q == p then Idle else Running(w, q)
             ensures !Inside(w', q)
    {
      assert Inside(w, q) ==> q == p;
    }
    MoveKeeps(c, w, p, Idle, w');
  }

  // ---- Steps that change the archive or a file ----

  // The processes other than the one inside hold nothing the data could break.
  lemma OthersOk(c: Rules, w: World, p: nat, process: Process, w': World)
    requires Serial(w) && Progress(c, w) && Inside(w, p)
    requires w'.mutex == w.mutex && w'.processes == w.processes[p := process]
    requires process.Holding? && process.token == Running(w, p).token
    requires ProcessOk(c, w'.files, w'.archive, process)
    ensures Serial(w') && Progress(c, w')
  {
    SerialStay(w, p, process, w');
    forall q ensures ProcessOk(c, w'.files, w'.archive, Running(w', q)) {
      if q != p {
        assert Running(w', q) == Running(w, q) && !Inside(w, q);
        assert ProcessOk(c, w.files, w.archive, Running(w, q));
      }
    }
  }

  // A copy of the current record of a v2 lease may always be added.
  lemma ArchiveAdd(w: World, id: string, link: bool, w': World)
    requires Archived(w) && id in w.history && w.history[id] != []
    requires w.history[id][0].schema == V2 && Last(w.history[id]).state == Active
    requires (id, |w.history[id]|) !in w.archive || w.archive[(id, |w.history[id]|)].content == Json(Last(w.history[id]))
    requires w'.history == w.history
    requires w'.archive == w.archive[(id, |w.history[id]|) := Published(Last(w.history[id]), link)]
    ensures Archived(w')
  {
    forall i, k | (i, k) in w'.archive ensures ArchivedCopy(w', i, k) {
      if (i, k) != (id, |w.history[id]|) { assert ArchivedCopy(w, i, k); }
    }
    forall i, k | i in w'.history && w'.history[i] != [] && w'.history[i][0].schema == V2
        && 1 <= k <= Replacements(w'.history[i])
      ensures ArchivedCopy(w', i, k) && w'.archive[(i, k)].links == 1
    {
      assert ArchivedCopy(w, i, k);
    }
  }

  // The file a replacement found is the last record published under its id.
  lemma FoundIsLast(c: Rules, w: World, id: string, current: Record)
    requires Sound(c) && Stored(c, w) && Finds(w.files, id, current)
    ensures id in w.history && w.history[id] != [] && Last(w.history[id]) == current
    ensures current.leaseId == Some(id) && current.generation == |w.history[id]|
    ensures current.schema == w.history[id][0].schema
    ensures KeyOf(current) == (id, |w.history[id]|)
  {
    assert StoredFile(w.files[id], w.history[id]);
    LegalFacts(c, id, w.history[id], w.now, |w.history[id]| - 1);
  }

  lemma ReplacingFacts(c: Rules, files: Files, candidate: Record, expected: int, current: Option<Record>)
    requires Sound(c) && Replacing(c, files, candidate, expected, current)
    ensures current.value.state == Active && current.value.generation == expected
  {
  }

  lemma KeepsPreserve(c: Rules, w: World, p: nat, link: bool, w': World)
    requires Inv(c, w) && Next(c, w, Preserve(p, link), w')
    ensures Inv(c, w')
  {
    hide Sound, NoConflict, IdsDistinct;
    var before := Running(w, p);
    assert ProcessOk(c, w.files, w.archive, before);
    var current := before.stage.current;
    var id := before.op.candidate.leaseId.value;
    FoundIsLast(c, w, id, current.value);
    ReplacingFacts(c, w.files, before.op.candidate, before.op.expected, current);
    if KeyOf(current.value) in w.archive {
      var process := before.(stage := Publishing(current));
      SerialStay(w, p, process, w');
      MoveKeeps(c, w, p, process, w');
    } else {
      var process := before.(stage := if link then ArchiveLinked(current) else Publishing(current));
      ArchiveAdd(w, id, link, w');
      OthersOk(c, w, p, process, w');
      assert Stored(c, w');
    }
  }

  lemma KeepsPreserveUnlink(c: Rules, w: World, p: nat, w': World)
    requires Inv(c, w) && Next(c, w, PreserveUnlink(p), w')
    ensures Inv(c, w')
  {
    hide Sound, NoConflict, IdsDistinct;
    var before := Running(w, p);
    assert ProcessOk(c, w.files, w.archive, before);
    var current := before.stage.current;
    var id := before.op.candidate.leaseId.value;
    FoundIsLast(c, w, id, current.value);
    ReplacingFacts(c, w.files, before.op.candidate, before.op.expected, current);
    assert ArchivedCopy(w, id, |w.history[id]|);
    ArchiveAdd(w, id, false, w');
    OthersOk(c, w, p, before.(stage := Publishing(current)), w');
    assert Stored(c, w');
  }

  lemma KeepsUnlink(c: Rules, w: World, p: nat, w': World)
    requires Inv(c, w) && Next(c, w, Unlink(p), w')
    ensures Inv(c, w')
  {
    var before := Running(w, p);
    var id := Target(before.op).value;
    UnlinkKeepsData(c, w, id, w');
    OthersOk(c, w, p, before.(stage := Leaving), w');
  }

  lemma UnlinkKeepsData(c: Rules, w: World, id: string, w': World)
    requires Data(c, w) && id in w.files && w'.files == w.files[id := w.files[id].(links := 1)]
    requires w'.archive == w.archive && w'.history == w.history && w'.now == w.now
    ensures Data(c, w')
  {
    hide Stored, NoConflict, IdsDistinct, Archived;
    UnlinkKeepsStored(c, w, id, w');
    UnlinkKeepsApart(c, w.files, id, w'.files);
    SameArchive(w, w');
  }

  lemma UnlinkKeepsStored(c: Rules, w: World, id: string, w': World)
    requires Stored(c, w) && id in w.files && w'.files == w.files[id := w.files[id].(links := 1)]
    requires w'.history == w.history && w'.now == w.now
    ensures Stored(c, w')
  {
    hide LegalStep;
    forall i <- w'.files ensures Legal(c, i, w'.history[i], w'.now) && StoredFile(w'.files[i], w'.history[i]) {
      assert StoredFile(w.files[i], w.history[i]);
    }
  }

  lemma UnlinkKeepsApart(c: Rules, files: Files, id: string, files': Files)
    requires IdsDistinct(files) && NoConflict(c, files)
    requires id in files && files' == files[id := files[id].(links := 1)]
    ensures IdsDistinct(files') && NoConflict(c, files')
  {
    forall a, b | ActiveFile(files', a) && ActiveFile(files', b) && a != b
      ensures !c.conflicts(files'[a].content.doc, files'[b].content.doc)
    {
      assert ActiveFile(files, a) && ActiveFile(files, b);
    }
  }

  lemma SameArchive(w: World, w': World)
    requires Archived(w) && w'.history == w.history && w'.archive == w.archive
    ensures Archived(w')
  {
    forall i, k | (i, k) in w'.archive ensures ArchivedCopy(w', i, k) {
      assert ArchivedCopy(w, i, k);
    }
    forall i, k | i in w'.history && w'.history[i] != [] && w'.history[i][0].schema == V2
        && 1 <= k <= Replacements(w'.history[i])
      ensures ArchivedCopy(w', i, k) && w'.archive[(i, k)].links == 1
    {
      assert ArchivedCopy(w, i, k);
    }
  }

  // ---- Publication ----

  // An ACTIVE record that clears every other file can be stored.
  lemma NoConflictAfter(c: Rules, files: Files, id: string, doc: Record, link: bool)
    requires Sound(c) && NoConflict(c, files)
    requires doc.state == Active ==> ClearOf(c, files, doc, files.Keys - {id})
    ensures NoConflict(c, files[id := Published(doc, link)])
  {
    var after := files[id := Published(doc, link)];
    forall a, b | ActiveFile(after, a) && ActiveFile(after, b) && a != b
      ensures !c.conflicts(after[a].content.doc, after[b].content.doc)
    {
      if a == id {
        assert ActiveFile(files, b) && Clear(c, files, doc, b);
      } else if b == id {
        assert ActiveFile(files, a) && Clear(c, files, doc, a);
      } else {
        assert ActiveFile(files, a) && ActiveFile(files, b);
      }
    }
  }

  lemma ArchivedAfter(w: World, id: string, doc: Record, link: bool)
    requires Archived(w)
    requires id in w.history ==> w.history[id] != []
    requires id !in w.history ==> doc.state == Active
    requires id in w.history ==> Last(w.history[id]).state == Active
    requires id in w.history && w.history[id][0].schema == V2 && doc.state == Active ==>
      (id, |w.history[id]|) in w.archive && w.archive[(id, |w.history[id]|)] == Whole(Last(w.history[id]))
    ensures Archived(WithRecord(w, id, doc, link))
  {
    var w' := WithRecord(w, id, doc, link);
    forall i, k | (i, k) in w'.archive ensures ArchivedCopy(w', i, k) {
      assert ArchivedCopy(w, i, k);
    }
    forall i, k | i in w'.history && w'.history[i] != [] && w'.history[i][0].schema == V2
        && 1 <= k <= Replacements(w'.history[i])
      ensures ArchivedCopy(w', i, k) && w'.archive[(i, k)].links == 1
    {
      if i == id && k == |w'.history[id]| - 1 && doc.state == Active {
        assert (id, k) in w.archive && ArchivedCopy(w, id, k);
      } else {
        assert ArchivedCopy(w, i, k);
      }
    }
  }

  lemma IdsDistinctNew(c: Rules, files: Files, id: string, doc: Record, entry: Entry)
    requires IdsDistinct(files) && doc.leaseId == Some(id) && ClearOf(c, files, doc, files.Keys)
    ensures IdsDistinct(files[id := entry])
  {
    forall b <- files ensures Fold(id) != Fold(b) {
      assert Clear(c, files, doc, b);
    }
  }

  lemma StoredNew(c: Rules, w: World, id: string, doc: Record, link: bool)
    requires Stored(c, w) && id !in w.files
    requires c.acquires(doc) && doc.leaseId == Some(id)
    ensures Stored(c, WithRecord(w, id, doc, link))
  {
    hide LegalStep;
    var w' := WithRecord(w, id, doc, link);
    assert w'.history[id] == [doc];
    forall i <- w'.files ensures Legal(c, i, w'.history[i], w'.now) && StoredFile(w'.files[i], w'.history[i]) {
      if i != id {
        assert w'.history[i] == w.history[i] && w'.files[i] == w.files[i];
      } else {
        assert Legal(c, id, [doc], w.now);
      }
    }
  }

  lemma StoredNext(c: Rules, w: World, id: string, doc: Record)
    requires Stored(c, w) && IdsDistinct(w.files) && id in w.files && w.history[id] != []
    requires LegalStep(c, Last(w.history[id]), doc, w.now)
    ensures Stored(c, WithRecord(w, id, doc, false)) && IdsDistinct(WithRecord(w, id, doc, false).files)
  {
    hide LegalStep;
    var w' := WithRecord(w, id, doc, false);
    LegalExtend(c, id, w.history[id], w.now, doc);
    forall i <- w'.files ensures Legal(c, i, w'.history[i], w'.now) && StoredFile(w'.files[i], w'.history[i]) {
      assert i != id ==> w'.history[i] == w.history[i] && w'.files[i] == w.files[i];
    }
  }

  // What a publication adds to a history is a legal step.
  lemma PublishedStep(c: Rules, w: World, op: Operation, current: Option<Record>, doc: Record, link: bool)
    requires Sound(c) && CanPublish(c, w, op, current, doc, link) && !op.Acquire?
    requires StageOk(c, w.files, w.archive, op, Publishing(current))
    ensures current.Some? && LegalStep(c, current.value, doc, w.now)
    ensures op.Release? ==> doc.state == Released
  {
    match op
    case Replace(candidate, expected) =>
      assert ReplacedBy(c, current.value, doc);
    case Release(id, expected, terminal, outcome) =>
      if current.value.schema == V2 {
        assert ClosedV2(c, current.value, doc, w.now);
      } else {
        assert ClosedV1(c, current.value, doc, w.now);
      }
  }

  lemma KeepsPublish(c: Rules, w: World, p: nat, link: bool, w': World)
    requires Inv(c, w) && Next(c, w, Publish(p, link), w')
    ensures Inv(c, w')
  {
    hide CanPublish, Data, Sound;
    var before := Running(w, p);
    assert ProcessOk(c, w.files, w.archive, before);
    var current := before.stage.current;
    var id := Target(before.op).value;
    var process := before.(stage := if link then Linked else Leaving);
    var doc :| CanPublish(c, w, before.op, current, doc, link)
      && w' == Move(WithRecord(w, id, doc, link), p, process);
    var data := WithRecord(w, id, doc, link);
    PublishKeepsData(c, w, before.op, current, doc, link);
    assert Data(c, w') by {
      SameDataKeeps(c, data, w');
    }
    PublisherOk(c, w, before.op, current, doc, link, data);
    OthersOk(c, w, p, process, w');
  }

  lemma PublisherOk(c: Rules, w: World, op: Operation, current: Option<Record>, doc: Record, link: bool, w': World)
    requires Target(op).Some? && CanPublish(c, w, op, current, doc, link) && w' == WithRecord(w, Target(op).value, doc, link)
    ensures StageOk(c, w'.files, w'.archive, op, if link then Linked else Leaving)
  {
  }

  lemma PublishKeepsData(c: Rules, w: World, op: Operation, current: Option<Record>, doc: Record, link: bool)
    requires Sound(c) && Data(c, w) && OperationOk(c, op) && Target(op).Some?
    requires CanPublish(c, w, op, current, doc, link)
    requires StageOk(c, w.files, w.archive, op, Publishing(current))
    ensures Data(c, WithRecord(w, Target(op).value, doc, link))
  {
    var id := Target(op).value;
    if op.Acquire? {
      assert w.files.Keys - {id} == w.files.Keys;
      StoredNew(c, w, id, doc, link);
      IdsDistinctNew(c, w.files, id, doc, Published(doc, link));
    } else {
      FoundIsLast(c, w, id, current.value);
      PublishedStep(c, w, op, current, doc, link);
      StoredNext(c, w, id, doc);
    }
    NoConflictAfter(c, w.files, id, doc, link);
    ArchivedAfter(w, id, doc, link);
  }

  // Every step keeps the invariant.
  lemma NextKeepsInv(c: Rules, w: World, a: Action, w': World)
    requires Inv(c, w) && Next(c, w, a, w')
    ensures Inv(c, w')
  {
    hide Inv, Next;
    match a
    case Tick(delta) => KeepsTick(c, w, delta, w');
    case ClearMutex => KeepsClear(c, w, w');
    case Request(p, op) => KeepsRequest(c, w, p, op, w');
    case Enter(p) => KeepsEnter(c, w, p, w');
    case ReadCurrent(p) => KeepsRead(c, w, p, w');
    case ScanFile(p, id) => KeepsScan(c, w, p, id, w');
    case FinishScan(p) => KeepsFinish(c, w, p, w');
    case Preserve(p, link) => KeepsPreserve(c, w, p, link, w');
    case PreserveUnlink(p) => KeepsPreserveUnlink(c, w, p, w');
    case Publish(p, link) => KeepsPublish(c, w, p, link, w');
    case Unlink(p) => KeepsUnlink(c, w, p, w');
    case Fail(p) => KeepsFail(c, w, p, w');
    case Leave(p) => KeepsLeave(c, w, p, w');
    case Crash(p) => KeepsCrash(c, w, p, w');
  }
}
