// The admission protocol: any number of processes run acquire, replace and
// release on one lock root, serialised by an atomic directory creation. A
// process can fail or die between any two steps, and time advances freely.
module Admission {
  import opened Commons
  import opened Text
  import opened Records
  import opened LockRoot

  // The checks the operations make, as they are applied to records and files.
  // The protocol is proved for every such set of checks with the few facts of
  // `Sound`; module Reachability supplies the real ones.
  datatype Rules = Rules(
    // a first candidate: valid, ACTIVE, generation 1, bound by its decision
    acquires: Record -> bool,
    unexpired: (Record, int) -> bool,
    // a replacement candidate, before the mutex is taken
    requests: Record -> bool,
    // candidate, current, expected generation
    succeeds: (Record, Record, int) -> bool,
    // terminal candidate, current, requested id, expected generation
    closes: (Record, Record, string, int) -> bool,
    // terminal candidate, current, at an instant
    authorised: (Record, Record, int) -> bool,
    // current, requested outcome
    closesLegacy: (Record, string) -> bool,
    // the record a legacy release writes at an instant
    legacyReleased: (Record, int, string) -> Record,
    conflicts: (Record, Record) -> bool,
    // the scan's verdict on one file for a candidate
    passes: (Record, Files, string, int) -> bool)

  predicate SameLine(a: Record, b: Record) {
    a.leaseId == b.leaseId && b.generation == a.generation + 1 && a.schema == b.schema
  }

  ghost predicate Sound(c: Rules) {
    && (forall d :: c.acquires(d) ==>
          d.leaseId.Some? && d.state == Active && d.generation == 1 && d.schema != UnknownSchema)
    && (forall a, b, n :: c.succeeds(b, a, n) ==>
          SameLine(a, b) && a.state == Active && b.state == Active && a.generation == n)
    && (forall a, b, id, n :: c.closes(b, a, id, n) ==>
          SameLine(a, b) && a.state == Active && b.state == Released && a.schema == V2)
    && (forall a, outcome :: c.closesLegacy(a, outcome) ==> a.schema == V1)
    && (forall a, at, outcome :: SameLine(a, c.legacyReleased(a, at, outcome))
          && c.legacyReleased(a, at, outcome).state == Released)
    && (forall a, b :: c.conflicts(a, b) == c.conflicts(b, a))
    && (forall d, files: Files, id, now :: c.passes(d, files, id, now) && id in files && d.leaseId.Some? ==>
          && Fold(d.leaseId.value) != Fold(id)
          && (ActiveFile(files, id) && files[id].regular ==> !c.conflicts(d, files[id].content.doc)))
  }

  predicate ActiveFile(files: Files, id: string) {
    id in files && files[id].content.Json? && files[id].content.doc.state == Active
  }

  datatype Operation =
    | Acquire(candidate: Record)
    | Replace(candidate: Record, expected: int)
    | Release(leaseId: string, expected: int, terminal: Option<Record>, outcome: string)

  datatype Stage =
    | Entered
    | Scanning(current: Option<Record>, todo: set<string>)
    | Archiving(current: Option<Record>)
    | ArchiveLinked(current: Option<Record>)
    | Publishing(current: Option<Record>)
    | Linked
    | Leaving

  datatype Process =
    | Idle
    | Requested(op: Operation)
    | Holding(op: Operation, token: nat, stage: Stage)

  type ArchiveKey = (string, int)

  // The mutex directory carries the identity it was created with. `history`
  // lists what was published under each id, in order.
  datatype World = World(
    now: int,
    mutex: Option<nat>,
    nextToken: nat,
    files: Files,
    archive: map<ArchiveKey, Entry>,
    processes: map<nat, Process>,
    history: map<string, seq<Record>>)

  datatype Action =
    | Tick(delta: nat)
    | ClearMutex
    | Request(p: nat, op: Operation)
    | Enter(p: nat)
    | ReadCurrent(p: nat)
    | ScanFile(p: nat, id: string)
    | FinishScan(p: nat)
    | Preserve(p: nat, link: bool)
    | PreserveUnlink(p: nat)
    | Publish(p: nat, link: bool)
    | Unlink(p: nat)
    | Fail(p: nat)
    | Leave(p: nat)
    | Crash(p: nat)

  function Running(w: World, p: nat): Process {
    if p in w.processes then w.processes[p] else Idle
  }

  function Move(w: World, p: nat, process: Process): World {
    w.(processes := w.processes[p := process])
  }

  predicate Inside(w: World, p: nat) {
    Running(w, p).Holding?
  }

  function Target(op: Operation): Option<string> {
    match op
    case Acquire(candidate) => candidate.leaseId
    case Replace(candidate, _) => candidate.leaseId
    case Release(id, _, _, _) => Some(id)
  }

  function Whole(doc: Record): Entry {
    Entry(true, 1, Json(doc))
  }

  function Published(doc: Record, link: bool): Entry {
    Entry(true, if link then 2 else 1, Json(doc))
  }

  predicate Initial(w: World) {
    w.mutex.None? && w.files == map[] && w.archive == map[] && w.processes == map[] && w.history == map[]
  }

  // ---- Steps ----

  ghost predicate RequestValid(c: Rules, op: Operation, now: int) {
    match op
    case Acquire(candidate) => c.acquires(candidate) && c.unexpired(candidate, now)
    case Replace(candidate, _) => c.requests(candidate)
    case Release(_, _, _, _) => true
  }

  // The record an operation finds under its own id, read as one ordinary file.
  predicate Finds(files: Files, id: string, current: Record) {
    OrdinaryEntry(files, id) && files[id].content == Json(current)
  }

  ghost predicate ReleaseChecked(c: Rules, op: Operation, current: Record)
    requires op.Release?
  {
    && current.leaseId == Some(op.leaseId) && current.state == Active && current.generation == op.expected
    && match current.schema
       case V2 => op.terminal.Some? && c.closes(op.terminal.value, current, op.leaseId, op.expected)
       case V1 => c.closesLegacy(current, op.outcome)
       case UnknownSchema => false
  }

  ghost predicate ReleaseNow(c: Rules, op: Operation, current: Record, now: int)
    requires op.Release?
  {
    current.schema == V2 ==> op.terminal.Some? && c.authorised(op.terminal.value, current, now)
  }

  ghost predicate CanRead(c: Rules, w: World, op: Operation, stage: Stage) {
    match op
    case Acquire(candidate) => stage == Scanning(None, w.files.Keys)
    case Replace(candidate, expected) =>
      && stage.Scanning? && stage.current.Some? && candidate.leaseId.Some?
      && Finds(w.files, candidate.leaseId.value, stage.current.value)
      && c.succeeds(candidate, stage.current.value, expected)
      && stage.todo == w.files.Keys - {candidate.leaseId.value}
    case Release(id, _, _, _) =>
      && stage.Publishing? && stage.current.Some?
      && Finds(w.files, id, stage.current.value)
      && ReleaseChecked(c, op, stage.current.value) && ReleaseNow(c, op, stage.current.value, w.now)
  }

  predicate Preserves(op: Operation, current: Option<Record>) {
    op.Replace? && current.Some? && current.value.schema == V2
  }

  function KeyOf(current: Record): ArchiveKey {
    (if current.leaseId.Some? then current.leaseId.value else "", current.generation)
  }

  // What a publication writes, once its last checks pass at that instant.
  ghost predicate CanPublish(c: Rules, w: World, op: Operation, current: Option<Record>, doc: Record, link: bool) {
    match op
    case Acquire(candidate) =>
      && doc == candidate && candidate.leaseId.Some? && candidate.leaseId.value !in w.files
      && c.unexpired(candidate, w.now)
    case Replace(candidate, _) =>
      && doc == candidate && candidate.leaseId.Some? && current.Some? && !link
      && Finds(w.files, candidate.leaseId.value, current.value)
    case Release(id, _, terminal, outcome) =>
      && current.Some? && !link && Finds(w.files, id, current.value)
      && if current.value.schema == V2 then
           terminal.Some? && doc == terminal.value
           && c.authorised(doc, current.value, w.now)
         else doc == c.legacyReleased(current.value, w.now, outcome)
  }

  function WithRecord(w: World, id: string, doc: Record, link: bool): World {
    w.(files := w.files[id := Published(doc, link)],
       history := w.history[id := (if id in w.history then w.history[id] else []) + [doc]])
  }

  ghost predicate PublishStep(c: Rules, w: World, p: nat, link: bool, w': World) {
    && Inside(w, p) && Running(w, p).stage.Publishing? && Target(Running(w, p).op).Some?
    && var process := Running(w, p);
    exists doc ::
      && CanPublish(c, w, process.op, process.stage.current, doc, link)
      && w' == Move(WithRecord(w, Target(process.op).value, doc, link), p,
                    process.(stage := if link then Linked else Leaving))
  }

  ghost predicate PreserveStep(w: World, p: nat, link: bool, w': World) {
    && Inside(w, p) && Running(w, p).stage.Archiving? && Running(w, p).stage.current.Some?
    && var process := Running(w, p);
    var current := process.stage.current;
    var key := KeyOf(current.value);
    if key in w.archive then
      && w.archive[key] == Whole(current.value)
      && w' == Move(w, p, process.(stage := Publishing(current)))
    else
      w' == Move(w.(archive := w.archive[key := Published(current.value, link)]), p,
                 process.(stage := if link then ArchiveLinked(current) else Publishing(current)))
  }

  ghost predicate Next(c: Rules, w: World, a: Action, w': World) {
    match a
    case Tick(delta) => w' == w.(now := w.now + delta)
    // An operator clears a left-over mutex after proving no operation is active.
    case ClearMutex => (forall p :: !Inside(w, p)) && w' == w.(mutex := None)
    case Request(p, op) =>
      Running(w, p).Idle? && RequestValid(c, op, w.now) && w' == Move(w, p, Requested(op))
    case Enter(p) =>
      && Running(w, p).Requested? && w.mutex.None?
      && w' == Move(w.(mutex := Some(w.nextToken), nextToken := w.nextToken + 1), p,
                    Holding(Running(w, p).op, w.nextToken, Entered))
    case ReadCurrent(p) =>
      && Inside(w, p) && Running(w, p).stage.Entered? && Inside(w', p)
      && CanRead(c, w, Running(w, p).op, Running(w', p).stage)
      && w' == Move(w, p, Running(w, p).(stage := Running(w', p).stage))
    case ScanFile(p, id) =>
      && Inside(w, p) && Running(w, p).stage.Scanning? && !Running(w, p).op.Release?
      && var process := Running(w, p);
      && id in process.stage.todo && id in w.files
      && c.passes(process.op.candidate, w.files, id, w.now)
      && w' == Move(w, p, process.(stage := process.stage.(todo := process.stage.todo - {id})))
    case FinishScan(p) =>
      && Inside(w, p) && Running(w, p).stage.Scanning? && Running(w, p).stage.todo == {}
      && var process := Running(w, p);
      var current := process.stage.current;
      w' == Move(w, p, process.(stage :=
        if Preserves(process.op, current) then Archiving(current) else Publishing(current)))
    case Preserve(p, link) => PreserveStep(w, p, link, w')
    case PreserveUnlink(p) =>
      && Inside(w, p) && Running(w, p).stage.ArchiveLinked? && Running(w, p).stage.current.Some?
      && var process := Running(w, p);
      var current := process.stage.current;
      w' == Move(w.(archive := w.archive[KeyOf(current.value) := Whole(current.value)]), p,
                 process.(stage := Publishing(current)))
    case Publish(p, link) => PublishStep(c, w, p, link, w')
    case Unlink(p) =>
      && Inside(w, p) && Running(w, p).stage.Linked? && Target(Running(w, p).op).Some?
      && var process := Running(w, p);
      var id := Target(process.op).value;
      && id in w.files
      && w' == Move(w.(files := w.files[id := w.files[id].(links := 1)]), p, process.(stage := Leaving))
    case Fail(p) =>
      if Inside(w, p) then w' == Move(w, p, Running(w, p).(stage := Leaving))
      else Running(w, p).Requested? && w' == Move(w, p, Idle)
    // The mutex is removed only when it is still the directory that was created.
    case Leave(p) =>
      && Inside(w, p) && Running(w, p).stage.Leaving?
      && w' == Move(w.(mutex := if w.mutex == Some(Running(w, p).token) then None else w.mutex), p, Idle)
    case Crash(p) => w' == Move(w, p, Idle)
  }

  ghost predicate Run(c: Rules, worlds: seq<World>, actions: seq<Action>) {
    && |worlds| == |actions| + 1 && Initial(worlds[0])
    && forall i, j :: 0 <= i < |actions| && j == i + 1 ==> Next(c, worlds[i], actions[i], worlds[j])
  }

  // Steps from any world, and what they can reach.
  ghost predicate Steps(c: Rules, worlds: seq<World>, actions: seq<Action>) {
    && |worlds| == |actions| + 1
    && forall i, j :: 0 <= i < |actions| && j == i + 1 ==> Next(c, worlds[i], actions[i], worlds[j])
  }

  ghost predicate LeadsTo(c: Rules, w: World, w': World, worlds: seq<World>, actions: seq<Action>) {
    Steps(c, worlds, actions) && worlds[0] == w && worlds[|worlds| - 1] == w'
  }

  ghost predicate Reaches(c: Rules, w: World, w': World) {
    exists worlds, actions :: LeadsTo(c, w, w', worlds, actions)
  }

  // ---- Legal histories ----

  ghost predicate ReplacedBy(c: Rules, a: Record, b: Record) {
    c.succeeds(b, a, a.generation)
  }

  ghost predicate ClosedV2(c: Rules, a: Record, b: Record, at: int) {
    a.leaseId.Some? && c.closes(b, a, a.leaseId.value, a.generation) && c.authorised(b, a, at)
  }

  ghost predicate ClosedV1(c: Rules, a: Record, b: Record, at: int) {
    exists outcome :: c.closesLegacy(a, outcome) && b == c.legacyReleased(a, at, outcome)
  }

  ghost predicate ClosedBy(c: Rules, a: Record, b: Record, now: int) {
    exists at :: at <= now && (ClosedV2(c, a, b, at) || ClosedV1(c, a, b, at))
  }

  ghost predicate LegalStep(c: Rules, a: Record, b: Record, now: int) {
    a.state == Active && (ReplacedBy(c, a, b) || ClosedBy(c, a, b, now))
  }

  // One acquisition, then replacements, then possibly one release.
  ghost predicate Legal(c: Rules, id: string, h: seq<Record>, now: int) {
    && h != [] && c.acquires(h[0]) && h[0].leaseId == Some(id)
    && forall i, j :: 0 <= i && j == i + 1 && j < |h| ==> LegalStep(c, h[i], h[j], now)
  }

  function Last(h: seq<Record>): Record
    requires h != []
  {
    h[|h| - 1]
  }

  lemma StepFacts(c: Rules, a: Record, b: Record, now: int)
    requires Sound(c) && LegalStep(c, a, b, now)
    ensures b.leaseId == a.leaseId && b.generation == a.generation + 1 && b.schema == a.schema
    ensures b.state == Active <==> ReplacedBy(c, a, b)
    ensures b.state == Released <==> !ReplacedBy(c, a, b)
    ensures b.state != OtherState
  {
    if ReplacedBy(c, a, b) {
      assert b.state == Active;
    } else {
      var at :| at <= now && (ClosedV2(c, a, b, at) || ClosedV1(c, a, b, at));
    }
  }

  // The k-th publication under an id has generation k + 1; all but the last are ACTIVE.
  lemma {:induction false} LegalFacts(c: Rules, id: string, h: seq<Record>, now: int, k: nat)
    requires Sound(c) && Legal(c, id, h, now) && k < |h|
    ensures h[k].leaseId == Some(id) && h[k].generation == k + 1 && h[k].schema == h[0].schema
    ensures k + 1 < |h| ==> h[k].state == Active
    ensures h[k].state != OtherState && h[0].schema != UnknownSchema
    decreases k
  {
    if k > 0 {
      var i := k - 1;
      LegalFacts(c, id, h, now, i);
      assert LegalStep(c, h[i], h[k], now);
      StepFacts(c, h[i], h[k], now);
    }
    if k + 1 < |h| {
      var j := k + 1;
      assert LegalStep(c, h[k], h[j], now);
    }
  }

  lemma LegalLater(c: Rules, id: string, h: seq<Record>, now: int, later: int)
    requires Legal(c, id, h, now) && now <= later
    ensures Legal(c, id, h, later)
  {
    forall i, j | 0 <= i && j == i + 1 && j < |h| ensures LegalStep(c, h[i], h[j], later) {
      assert LegalStep(c, h[i], h[j], now);
      if ClosedBy(c, h[i], h[j], now) {
        var at :| at <= now && (ClosedV2(c, h[i], h[j], at) || ClosedV1(c, h[i], h[j], at));
      }
    }
  }

  lemma LegalExtend(c: Rules, id: string, h: seq<Record>, now: int, doc: Record)
    requires Legal(c, id, h, now) && LegalStep(c, Last(h), doc, now)
    ensures Legal(c, id, h + [doc], now)
  {
    var g := h + [doc];
    forall i, j | 0 <= i && j == i + 1 && j < |g| ensures LegalStep(c, g[i], g[j], now) {
      if j < |h| {
        assert g[i] == h[i] && g[j] == h[j];
        assert LegalStep(c, h[i], h[j], now);
      }
    }
  }
}
