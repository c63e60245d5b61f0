// Any number of MCP servers on one lock root, step by step. They share the fence
// directory and the staging area; each can fail or die between any two steps.
module Servers {
  import opened Commons

  // A call that made the fence: what it has put down, in the order it does so.
  datatype Call = Call(looked: bool, directory: Option<nat>, metadata: bool, snapshot: bool, over: bool)

  // Staging directories are told apart by the order they were made in. Behind the
  // fence stands at most the one call whose server made it.
  datatype World = World(
    fence: bool,
    metadata: bool,
    staging: set<nat>,
    made: nat,
    calls: map<nat, Call>,
    admissions: seq<nat>)

  datatype Action =
    | Refuse(p: nat)
    | Enter(p: nat)
    | Look(p: nat)
    | Stage(p: nat)
    | Note(p: nat)
    | Snapshot(p: nat)
    | Admit(p: nat)
    | Fail(p: nat)
    | DropSnapshot(p: nat)
    | DropDirectory(p: nat)
    | DropMetadata(p: nat)
    | DropFence(p: nat)
    | GiveUp(p: nat)

  predicate Inside(w: World, p: nat) { p in w.calls }

  function Put(w: World, p: nat, c: Call): World {
    w.(calls := w.calls[p := c])
  }

  // The call is over, whatever it leaves behind.
  function Gone(w: World, p: nat): World {
    w.(calls := w.calls - {p})
  }

  const OPENED := Call(false, None, false, false, false)

  predicate Next(w: World, a: Action, w': World) {
    var p := a.p;
    match a
    // A fence found standing: nothing behind it is reached.
    case Refuse(_) => !Inside(w, p) && w.fence && w' == w
    case Enter(_) => !Inside(w, p) && !w.fence && w' == Put(w.(fence := true), p, OPENED)
    case _ => Inside(w, p) && CallStep(w, a, w.calls[p], w')
  }

  predicate CallStep(w: World, a: Action, c: Call, w': World) {
    var p := a.p;
    match a
    // Anything in staging keeps the fence for good.
    case Look(_) =>
      && !c.looked && !c.over
      && w' == if w.staging != {} then Gone(w, p) else Put(w, p, c.(looked := true))
    case Stage(_) =>
      && c.looked && c.directory.None? && !c.over
      && w' == Put(w.(staging := w.staging + {w.made}, made := w.made + 1), p, c.(directory := Some(w.made)))
    case Note(_) =>
      c.directory.Some? && !c.metadata && !c.over && w' == Put(w.(metadata := true), p, c.(metadata := true))
    case Snapshot(_) =>
      c.metadata && !c.snapshot && !c.over && w' == Put(w, p, c.(snapshot := true))
    case Admit(_) =>
      c.snapshot && !c.over && w' == Put(w.(admissions := w.admissions + [p]), p, c.(over := true))
    case Fail(_) => !c.over && w' == Put(w, p, c.(over := true))
    case DropSnapshot(_) => c.over && c.snapshot && w' == Put(w, p, c.(snapshot := false))
    case DropDirectory(_) =>
      && c.over && !c.snapshot && c.directory.Some?
      && w' == Put(w.(staging := w.staging - {c.directory.value}), p, c.(directory := None))
    case DropMetadata(_) =>
      && c.over && c.directory.None? && c.metadata
      && w' == Put(w.(metadata := false), p, c.(metadata := false))
    // Removing the fence directory needs it to be empty.
    case DropFence(_) =>
      c.over && c.directory.None? && !c.metadata && !w.metadata && w' == Gone(w.(fence := false), p)
    // A failed removal ends the call where it stands, and so does a crash anywhere.
    case GiveUp(_) => w' == Gone(w, p)
    case _ => false
  }

  // Staging may hold leftovers of an earlier time.
  predicate Initial(w: World) {
    && !w.fence && !w.metadata && w.calls == map[] && w.admissions == [] && forall d <- w.staging :: d < w.made
  }

  ghost predicate IsRun(worlds: seq<World>, actions: seq<Action>) {
    && |worlds| == |actions| + 1 && Initial(worlds[0])
    && forall i, j :: 0 <= i < |actions| && j == i + 1 ==> Next(worlds[i], actions[i], worlds[j])
  }

  // ---- The invariant ----

  predicate CallOk(w: World, c: Call) {
    && w.fence && w.metadata == c.metadata
    && (c.directory.Some? ==> c.looked && c.directory.value in w.staging)
    && (c.looked ==> forall d <- w.staging :: c.directory == Some(d))
    && (c.snapshot ==> c.directory.Some?)
    && (!c.over ==> (c.metadata ==> c.directory.Some?) && (c.snapshot ==> c.metadata))
  }

  predicate Inv(w: World) {
    && (forall p <- w.calls :: CallOk(w, w.calls[p]))
    && (forall p <- w.calls, q <- w.calls :: p == q)
    && (w.metadata ==> w.fence)
    && forall d <- w.staging :: d < w.made
  }

  lemma NextKeepsInv(w: World, a: Action, w': World)
    requires Inv(w) && Next(w, a, w')
    ensures Inv(w')
  {
    if Inside(w, a.p) { assert CallOk(w, w.calls[a.p]); }
  }

  lemma {:induction false} RunInv(worlds: seq<World>, actions: seq<Action>, i: nat)
    requires IsRun(worlds, actions) && i < |worlds|
    ensures Inv(worlds[i])
  {
    hide Next, Inv;
    if i == 0 {
      InitialInv(worlds[0]);
    } else {
      var h := i - 1;
      RunInv(worlds, actions, h);
      assert Next(worlds[h], actions[h], worlds[i]);
      NextKeepsInv(worlds[h], actions[h], worlds[i]);
    }
  }

  lemma InitialInv(w: World)
    requires Initial(w)
    ensures Inv(w)
  {
  }

  // At most one server is behind the fence, and while one is the fence stands.
  lemma OneInside(worlds: seq<World>, actions: seq<Action>, i: nat, p: nat, q: nat)
    requires IsRun(worlds, actions) && i < |worlds| && Inside(worlds[i], p) && Inside(worlds[i], q)
    ensures p == q && worlds[i].fence
  {
    RunInv(worlds, actions, i);
    assert CallOk(worlds[i], worlds[i].calls[p]);
  }

  // ---- What an interrupted call leaves ----

  // A staging directory that is not of the call behind the fence.
  predicate Leftover(w: World, d: nat) {
    d in w.staging && forall p <- w.calls :: w.calls[p].directory != Some(d)
  }

  // The fence stands with nobody behind it, or something is left in staging.
  predicate Stuck(w: World) {
    (w.fence && w.calls == map[]) || exists d <- w.staging :: Leftover(w, d)
  }

  lemma StuckStep(w: World, a: Action, w': World)
    requires Inv(w) && Next(w, a, w') && Stuck(w)
    ensures Stuck(w') && w'.admissions == w.admissions
  {
    if Inside(w, a.p) {
      assert CallOk(w, w.calls[a.p]) && w.calls != map[];
    }
    if d :| d in w.staging && Leftover(w, d) {
      assert Leftover(w', d) || (w'.fence && w'.calls == map[]);
    }
  }

  // ---- What can still happen ----

  ghost predicate LeadsTo(w: World, w': World, worlds: seq<World>, actions: seq<Action>) {
    && |worlds| == |actions| + 1 && worlds[0] == w && worlds[|actions|] == w'
    && forall i, j :: 0 <= i < |actions| && j == i + 1 ==> Next(worlds[i], actions[i], worlds[j])
  }

  ghost predicate Reaches(w: World, w': World) {
    exists worlds, actions :: LeadsTo(w, w', worlds, actions)
  }

  lemma ReachSelf(w: World)
    ensures Reaches(w, w)
  {
    assert LeadsTo(w, w, [w], []);
  }

  lemma ReachStep(w: World, middle: World, a: Action, w': World)
    requires Reaches(w, middle) && Inv(middle) && Next(middle, a, w')
    ensures Reaches(w, w') && Inv(w')
  {
    NextKeepsInv(middle, a, w');
    hide Next;
    var worlds, actions :| LeadsTo(w, middle, worlds, actions);
    var ws, xs := worlds + [w'], actions + [a];
    forall i, j | 0 <= i < |xs| && j == i + 1 ensures Next(ws[i], xs[i], ws[j]) {
      if i < |actions| { assert Next(worlds[i], actions[i], worlds[j]); }
    }
    assert LeadsTo(w, w', ws, xs);
  }

  lemma {:induction false} StuckAlong(w: World, worlds: seq<World>, actions: seq<Action>, i: nat)
    requires |worlds| == |actions| + 1 && LeadsTo(w, worlds[|actions|], worlds, actions)
    requires Inv(w) && Stuck(w) && i < |worlds|
    ensures Inv(worlds[i]) && Stuck(worlds[i]) && worlds[i].admissions == w.admissions
  {
    hide Next, Inv, Stuck;
    if i > 0 {
      var h := i - 1;
      StuckAlong(w, worlds, actions, h);
      assert Next(worlds[h], actions[h], worlds[i]);
      NextKeepsInv(worlds[h], actions[h], worlds[i]);
      StuckStep(worlds[h], actions[h], worlds[i]);
    }
  }

  predicate Clean(w: World) {
    !w.fence && !w.metadata && w.staging == {} && w.calls == map[]
  }

  // With nothing left anywhere, a call goes all the way to admission.
  lemma CleanAdmits(start: World, w: World) returns (w': World)
    requires Reaches(start, w) && Inv(w) && Clean(w)
    ensures Reaches(start, w') && Inv(w') && Inside(w', 0) && w'.admissions == w.admissions + [0]
  {
    var ready := CleanStages(start, w);
    w' := StagedAdmits(start, ready);
  }

  lemma CleanStages(start: World, w: World) returns (w': World)
    requires Reaches(start, w) && Inv(w) && Clean(w)
    ensures Reaches(start, w') && Inv(w') && w'.admissions == w.admissions
    ensures Inside(w', 0) && w'.calls[0] == Call(true, Some(w.made), false, false, false)
  {
    hide Reaches, Inv;
    var w1 := Put(w.(fence := true), 0, OPENED);
    ReachStep(start, w, Enter(0), w1);
    var w2 := Put(w1, 0, OPENED.(looked := true));
    ReachStep(start, w1, Look(0), w2);
    w' := Put(w2.(staging := w2.staging + {w.made}, made := w.made + 1), 0, Call(true, Some(w.made), false, false, false));
    ReachStep(start, w2, Stage(0), w');
  }

  lemma StagedAdmits(start: World, w: World) returns (w': World)
    requires Reaches(start, w) && Inv(w) && Inside(w, 0)
    requires w.calls[0].directory.Some? && w.calls[0] == Call(true, w.calls[0].directory, false, false, false)
    ensures Reaches(start, w') && Inv(w') && Inside(w', 0) && w'.admissions == w.admissions + [0]
  {
    hide Reaches, Inv;
    var c := w.calls[0];
    var w1 := Put(w.(metadata := true), 0, c.(metadata := true));
    ReachStep(start, w, Note(0), w1);
    var w2 := Put(w1, 0, c.(metadata := true, snapshot := true));
    ReachStep(start, w1, Snapshot(0), w2);
    w' := Put(w2.(admissions := w2.admissions + [0]), 0, c.(metadata := true, snapshot := true, over := true));
    ReachStep(start, w2, Admit(0), w');
  }

  // The one call behind the fence can always end and take everything with it.
  lemma CallCleans(w: World, p: nat) returns (w': World)
    requires Inv(w) && !Stuck(w) && Inside(w, p)
    ensures Reaches(w, w') && Inv(w') && Clean(w') && w'.admissions == w.admissions
  {
    hide Reaches;
    ReachSelf(w);
    assert CallOk(w, w.calls[p]) && w.calls == map[p := w.calls[p]];
    assert forall d <- w.staging :: w.calls[p].directory == Some(d) by {
      forall d <- w.staging ensures w.calls[p].directory == Some(d) { assert !Leftover(w, d); }
    }
    var w1 := w;
    if !w.calls[p].over {
      w1 := Put(w, p, w.calls[p].(over := true));
      ReachStep(w, w, Fail(p), w1);
    }
    var w2 := DropsSnapshot(w, w1, p);
    var w3 := DropsDirectory(w, w2, p);
    var w4 := DropsMetadata(w, w3, p);
    w' := Gone(w4.(fence := false), p);
    ReachStep(w, w4, DropFence(p), w');
  }

  predicate Ending(w: World, p: nat) {
    Inside(w, p) && w.calls == map[p := w.calls[p]] && w.calls[p].over
    && forall d <- w.staging :: w.calls[p].directory == Some(d)
  }

  lemma DropsSnapshot(start: World, w: World, p: nat) returns (w': World)
    requires Reaches(start, w) && Inv(w) && Ending(w, p)
    ensures Reaches(start, w') && Inv(w') && Ending(w', p) && w'.admissions == w.admissions && !w'.calls[p].snapshot
  {
    hide Reaches, Inv;
    w' := w;
    if w.calls[p].snapshot {
      w' := Put(w, p, w.calls[p].(snapshot := false));
      ReachStep(start, w, DropSnapshot(p), w');
    }
  }

  lemma DropsDirectory(start: World, w: World, p: nat) returns (w': World)
    requires Reaches(start, w) && Inv(w) && Ending(w, p) && !w.calls[p].snapshot
    ensures Reaches(start, w') && Inv(w') && Ending(w', p) && w'.admissions == w.admissions
    ensures w'.calls[p].directory.None? && w'.staging == {}
  {
    hide Reaches, Inv;
    w' := w;
    var directory := w.calls[p].directory;
    if directory.Some? {
      w' := Put(w.(staging := w.staging - {directory.value}), p, w.calls[p].(directory := None));
      ReachStep(start, w, DropDirectory(p), w');
    }
  }

  lemma DropsMetadata(start: World, w: World, p: nat) returns (w': World)
    requires Reaches(start, w) && Inv(w) && Ending(w, p) && w.calls[p].directory.None? && w.staging == {}
    ensures Reaches(start, w') && Inv(w') && Ending(w', p) && w'.admissions == w.admissions
    ensures w'.calls[p].directory.None? && w'.staging == {} && !w'.calls[p].metadata && !w'.metadata
  {
    hide Reaches;
    assert CallOk(w, w.calls[p]);
    w' := w;
    if w.calls[p].metadata {
      w' := Put(w.(metadata := false), p, w.calls[p].(metadata := false));
      ReachStep(start, w, DropMetadata(p), w');
    }
  }

  // At any moment of any run of any number of servers, some server can still get
  // through to admission exactly when no interrupted call has left the fence or a
  // staging directory behind. Once one has, nothing is admitted for good.
  lemma AdmissionPossible(worlds: seq<World>, actions: seq<Action>, i: nat)
    requires IsRun(worlds, actions) && i < |worlds|
    ensures (exists w' :: Reaches(worlds[i], w') && w'.admissions != worlds[i].admissions) <==> !Stuck(worlds[i])
  {
    hide Reaches, Inv, Stuck, Clean;
    RunInv(worlds, actions, i);
    var w := worlds[i];
    if Stuck(w) {
      forall w' | Reaches(w, w') ensures w'.admissions == w.admissions {
        StuckForever(w, w');
      }
    } else {
      var middle := Cleans(w);
      var w' := CleanAdmits(w, middle);
      assert Reaches(w, w') && w'.admissions != w.admissions;
    }
  }

  lemma StuckForever(w: World, w': World)
    requires Inv(w) && Stuck(w) && Reaches(w, w')
    ensures Stuck(w') && w'.admissions == w.admissions
  {
    hide Next, Inv, Stuck;
    var worlds, actions :| LeadsTo(w, w', worlds, actions);
    StuckAlong(w, worlds, actions, |actions|);
  }

  lemma Cleans(w: World) returns (w': World)
    requires Inv(w) && !Stuck(w)
    ensures Reaches(w, w') && Inv(w') && Clean(w') && w'.admissions == w.admissions
  {
    hide Reaches, Stuck;
    if w.calls == map[] {
      ReachSelf(w);
      w' := w;
      IdleLeftovers(w);
    } else {
      var p :| p in w.calls;
      w' := CallCleans(w, p);
    }
  }

  lemma IdleLeftovers(w: World)
    requires w.calls == map[]
    ensures w.fence || w.staging != {} ==> Stuck(w)
  {
    if d :| d in w.staging {
      assert Leftover(w, d);
    }
  }

  // A server that dies behind the fence does leave it so, after whatever it admitted.
  lemma CanBeStuck(admitted: bool) returns (w: World)
    ensures Reaches(World(false, false, {}, 0, map[], []), w) && Inv(w) && Stuck(w)
    ensures w.admissions == if admitted then [0] else []
  {
    hide Reaches;
    var start := World(false, false, {}, 0, map[], []);
    ReachSelf(start);
    var w1;
    if admitted {
      w1 := CleanAdmits(start, start);
      assert Inside(w1, 0);
    } else {
      w1 := Put(start.(fence := true), 0, OPENED);
      ReachStep(start, start, Enter(0), w1);
    }
    w := Gone(w1, 0);
    ReachStep(start, w1, GiveUp(0), w);
  }
}
