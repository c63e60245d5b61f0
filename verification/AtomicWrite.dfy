// Crash-safe publication of one JSON file: first one call with every step able
// to fail, then any number of concurrent callers that can die anywhere.
module AtomicWrite {
  import opened Commons

  // ---- One call ----

  // Refused: failed before publication and cleaned up. Unsettled: failed with
  // something left to look at.
  datatype Outcome = Written | Refused | Unsettled(published: bool, leftover: bool)

  class Directory {
    var names: map<string, nat>
    var contents: map<nat, string>

    ghost predicate Valid()
      reads this
    {
      forall name <- names :: names[name] in contents
    }

    function Read(name: string): Option<string>
      requires Valid()
      reads this
    {
      if name in names then Some(contents[names[name]]) else None
    }

    // mkstemp chose an unused name and inode.
    method WriteAtomic(target: string, temp: string, inode: nat, payload: string, createNew: bool, native: bool)
      returns (r: Outcome)
      requires Valid() && temp != target && temp !in names
      requires inode !in contents
      modifies this
      ensures Valid()
      ensures forall name :: name != target && name != temp ==> Read(name) == old(Read(name))
      ensures r == Written ==> Read(target) == Some(payload) && temp !in names
      ensures r == Refused ==> Read(target) == old(Read(target)) && temp !in names
      ensures r.Unsettled? ==> Read(target) == (if r.published then Some(payload) else old(Read(target)))
      ensures r.Unsettled? ==> (r.leftover <==> temp in names)
      ensures createNew && target in old(names) ==> r != Written && target in names && names[target] == old(names[target])
      ensures target in names ==> Read(target) == Some(payload) || Read(target) == old(Read(target))
    {
      var created := Attempt();
      if !created { return Refused; }
      var filled := Prepare(temp, inode, payload);
      // before_publish, and the publishing call itself, may still fail.
      var may := Attempt();
      if !filled || !may || (createNew && target in names) {
        r := Clean(temp, false);
        return;
      }
      r := Publish(target, temp, payload, createNew && !native);
    }

    // The temporary file under its own name, filled.
    method Prepare(temp: string, inode: nat, payload: string) returns (filled: bool)
      requires Valid() && temp !in names && inode !in contents
      modifies this
      ensures Valid() && names == old(names)[temp := inode] && inode in contents && (filled ==> contents[inode] == payload)
      ensures forall name :: name != temp ==> Read(name) == old(Read(name))
    {
      names, contents := names[temp := inode], contents[inode := ""];
      filled := Fill(temp, inode, payload);
      forall name | name != temp ensures Read(name) == old(Read(name)) {
        if name in old(names) { assert old(names)[name] in old(contents) && old(names)[name] != inode; }
      }
    }

    // A full temporary file replaces the target's name, or is linked under it
    // first and loses its temporary name second.
    method Publish(target: string, temp: string, payload: string, linking: bool) returns (r: Outcome)
      requires Valid() && temp in names && temp != target && contents[names[temp]] == payload
      modifies this`names
      ensures Valid() && r != Refused
      ensures forall name :: name != target && name != temp ==> Read(name) == old(Read(name))
      ensures Read(target) == Some(payload) && (r.Unsettled? ==> r.published)
      ensures (r.Unsettled? && r.leftover) <==> temp in names
    {
      names := names[target := names[temp]];
      if linking {
        var unlinked := Attempt();
        if !unlinked {
          r := Clean(temp, true);
          return;
        }
      }
      names := names - {temp};
      var synced := Attempt();
      return if synced then Written else Unsettled(true, false);
    }

    // The buffered write, flush and fsync of the temporary file.
    method Fill(temp: string, inode: nat, payload: string) returns (ok: bool)
      requires Valid() && temp in names && names[temp] == inode
      modifies this`contents
      ensures Valid() && contents.Keys == old(contents.Keys)
      ensures forall i :: i in contents && i != inode ==> contents[i] == old(contents[i])
      ensures contents[inode] <= payload && (ok ==> contents[inode] == payload)
    {
      contents := contents[inode := ""];
      var offset := 0;
      while offset < |payload|
        invariant 0 <= offset <= |payload|
        invariant Valid() && contents.Keys == old(contents.Keys) && contents[inode] == payload[..offset]
        invariant forall i :: i in contents && i != inode ==> contents[i] == old(contents[i])
      {
        ok := Attempt();
        if !ok { return; }
        contents := contents[inode := contents[inode] + [payload[offset]]];
        offset := offset + 1;
      }
      ok := Attempt();
    }

    method Clean(temp: string, published: bool) returns (r: Outcome)
      requires Valid() && temp in names
      modifies this`names
      ensures Valid() && (temp !in names ==> names == old(names) - {temp})
      ensures r == if temp in names || published then Unsettled(published, temp in names) else Refused
      ensures temp in names ==> names == old(names)
      ensures forall name :: name != temp ==> Read(name) == old(Read(name))
    {
      var removed := Attempt();
      if removed { names := names - {temp}; }
      return if removed && !published then Refused else Unsettled(published, !removed);
    }
  }

  // ---- Many callers ----

  datatype Name = Target | Temp(writer: nat)

  // Each writer makes one file; Initial is what the target held before.
  datatype Inode = Initial | Of(writer: nat)

  datatype Job = Job(payload: string, createNew: bool, native: bool)

  // How a call ended: normally, or raising with or without its temporary name.
  datatype Ending = Returned | Raised | Stranded

  datatype Phase = Idle | Writing | Ready | Linked | Settling | Cleaning | Ended(end: Ending) | Dead

  datatype World = World(
    names: map<Name, Inode>,
    contents: map<Inode, string>,
    phases: map<nat, Phase>,
    published: seq<nat>)

  datatype Action =
    | Open(p: nat)
    | Write(p: nat, count: nat)
    | Flush(p: nat)
    | Publish(p: nat)
    | Unlink(p: nat)
    | Sync(p: nat)
    | Fail(p: nat)
    | Clean(p: nat, works: bool)
    | Crash(p: nat)

  function PhaseOf(w: World, p: nat): Phase {
    if p in w.phases then w.phases[p] else Idle
  }

  function Move(w: World, p: nat, phase: Phase): World {
    w.(phases := w.phases[p := phase])
  }

  predicate Initially(w: World) {
    && w.phases == map[] && w.published == []
    && (w.names == map[] || w.names == map[Target := Initial])
    && w.contents.Keys == {Initial}
  }

  predicate Next(jobs: nat -> Job, w: World, a: Action, w': World) {
    var p := a.p;
    var job := jobs(p);
    match a
    case Open(_) =>
      && PhaseOf(w, p) == Idle && Temp(p) !in w.names && Of(p) !in w.contents
      && w' == Move(w.(names := w.names[Temp(p) := Of(p)], contents := w.contents[Of(p) := ""]), p, Writing)
    case Write(_, count) =>
      && PhaseOf(w, p) == Writing && Of(p) in w.contents
      && |w.contents[Of(p)]| + count <= |job.payload|
      && w' == w.(contents := w.contents[Of(p) := job.payload[..|w.contents[Of(p)]| + count]])
    case Flush(_) =>
      && PhaseOf(w, p) == Writing && Of(p) in w.contents && w.contents[Of(p)] == job.payload
      && w' == Move(w, p, Ready)
    case Publish(_) =>
      && PhaseOf(w, p) == Ready && (job.createNew ==> Target !in w.names)
      && var linked := job.createNew && !job.native;
      && w' == Move(w.(names := if linked then w.names[Target := Of(p)] else w.names[Target := Of(p)] - {Temp(p)},
                       published := w.published + [p]),
                    p, if linked then Linked else Settling)
    case Unlink(_) =>
      PhaseOf(w, p) == Linked && w' == Move(w.(names := w.names - {Temp(p)}), p, Settling)
    case Sync(_) =>
      PhaseOf(w, p) == Settling && w' == Move(w, p, Ended(Returned))
    case Fail(_) =>
      && PhaseOf(w, p) in {Writing, Ready, Linked, Settling}
      && w' == Move(w, p, if PhaseOf(w, p) == Settling then Ended(Raised) else Cleaning)
    case Clean(_, works) =>
      && PhaseOf(w, p) == Cleaning
      && w' == if works then Move(w.(names := w.names - {Temp(p)}), p, Ended(Raised)) else Move(w, p, Ended(Stranded))
    case Crash(_) => !PhaseOf(w, p).Ended? && w' == Move(w, p, Dead)
  }

  ghost predicate IsRun(jobs: nat -> Job, worlds: seq<World>, actions: seq<Action>) {
    && |worlds| == |actions| + 1 && Initially(worlds[0])
    && forall i, j :: 0 <= i && j == i + 1 && j < |worlds| ==> Next(jobs, worlds[i], actions[i], worlds[j])
  }

  // What stands behind the target: the initial file or the last publication.
  function Behind(w: World): Inode {
    if w.published == [] then Initial else Of(w.published[|w.published| - 1])
  }

  // The writer's own file, as far as its phase says.
  ghost predicate WriterOk(jobs: nat -> Job, w: World, p: nat) {
    var phase := PhaseOf(w, p);
    && (Temp(p) in w.names ==> w.names[Temp(p)] == Of(p) && Of(p) in w.contents)
    && (phase in {Idle, Settling, Ended(Returned), Ended(Raised)} ==> Temp(p) !in w.names)
    && (phase in {Writing, Ready, Linked, Cleaning, Ended(Stranded)} ==> Temp(p) in w.names)
    && (phase == Idle ==> Of(p) !in w.contents)
    && (phase in {Writing, Ready} ==> Of(p) in w.contents && p !in w.published)
    && (phase in {Linked, Settling} ==> p in w.published)
    && (Of(p) in w.contents ==> w.contents[Of(p)] <= jobs(p).payload)
    && (phase == Ready || p in w.published ==> Of(p) in w.contents && w.contents[Of(p)] == jobs(p).payload)
    && (phase == Ended(Returned) ==> p in w.published)
  }

  ghost predicate Inv(jobs: nat -> Job, w: World, present: bool) {
    (forall p :: WriterOk(jobs, w, p)) && TargetOk(jobs, w, present)
  }

  lemma {:induction false} RunInv(jobs: nat -> Job, worlds: seq<World>, actions: seq<Action>, i: nat)
    requires IsRun(jobs, worlds, actions) && i < |worlds|
    ensures Inv(jobs, worlds[i], Target in worlds[0].names)
  {
    if i > 0 {
      var h := i - 1;
      RunInv(jobs, worlds, actions, h);
      assert Next(jobs, worlds[h], actions[h], worlds[i]);
      NextKeepsInv(jobs, worlds[h], actions[h], worlds[i], Target in worlds[0].names);
    }
  }

  lemma NextKeepsInv(jobs: nat -> Job, w: World, a: Action, w': World, present: bool)
    requires Inv(jobs, w, present) && Next(jobs, w, a, w')
    ensures Inv(jobs, w', present)
  {
    hide WriterOk;
    assert WriterOk(jobs, w, a.p);
    forall q ensures WriterOk(jobs, w', q) {
      assert WriterOk(jobs, w, q);
      if q == a.p { OwnWriterOk(jobs, w, a, w'); } else { OtherWriterOk(jobs, w, a, w', q); }
    }
    TargetKept(jobs, w, a, w', present);
  }

  lemma OwnWriterOk(jobs: nat -> Job, w: World, a: Action, w': World)
    requires WriterOk(jobs, w, a.p) && Next(jobs, w, a, w')
    ensures WriterOk(jobs, w', a.p)
  {
  }

  lemma OtherWriterOk(jobs: nat -> Job, w: World, a: Action, w': World, q: nat)
    requires WriterOk(jobs, w, q) && Next(jobs, w, a, w') && q != a.p
    ensures WriterOk(jobs, w', q)
  {
    assert PhaseOf(w', q) == PhaseOf(w, q);
    assert q in w'.published <==> q in w.published;
  }

  ghost predicate TargetOk(jobs: nat -> Job, w: World, present: bool) {
    && (Target in w.names <==> present || w.published != [])
    && (Target in w.names ==> w.names[Target] == Behind(w))
    && (forall i :: 0 <= i < |w.published| && jobs(w.published[i]).createNew ==> i == 0 && !present)
    && Initial in w.contents
  }

  lemma TargetKept(jobs: nat -> Job, w: World, a: Action, w': World, present: bool)
    requires TargetOk(jobs, w, present) && Next(jobs, w, a, w')
    ensures TargetOk(jobs, w', present)
  {
  }

  function Reads(w: World): Option<string> {
    if Target in w.names && w.names[Target] in w.contents then Some(w.contents[w.names[Target]]) else None
  }

  // At every moment, through crashes and races, a reader of the target finds
  // what was there at first, or the whole payload of the last publication.
  lemma TargetIsWhole(jobs: nat -> Job, worlds: seq<World>, actions: seq<Action>, i: nat)
    requires IsRun(jobs, worlds, actions) && i < |worlds|
    ensures var w := worlds[i];
      Reads(w) == if w.published == [] then Reads(worlds[0])
                  else Some(jobs(w.published[|w.published| - 1]).payload)
  {
    RunInv(jobs, worlds, actions, i);
    var w := worlds[i];
    if w.published != [] {
      var p := w.published[|w.published| - 1];
      assert WriterOk(jobs, w, p) && p in w.published;
    } else {
      InitialUntouched(jobs, worlds, actions, i);
    }
  }

  lemma {:induction false} InitialUntouched(jobs: nat -> Job, worlds: seq<World>, actions: seq<Action>, i: nat)
    requires IsRun(jobs, worlds, actions) && i < |worlds|
    ensures Initial in worlds[i].contents && worlds[i].contents[Initial] == worlds[0].contents[Initial]
  {
    if i > 0 {
      var h := i - 1;
      InitialUntouched(jobs, worlds, actions, h);
      assert Next(jobs, worlds[h], actions[h], worlds[i]);
    }
  }

  // create_new never overwrites, and of any number of create-new writers at
  // most one ever publishes.
  lemma CreateNewPublishesOnce(jobs: nat -> Job, worlds: seq<World>, actions: seq<Action>, i: nat, a: nat, b: nat)
    requires IsRun(jobs, worlds, actions) && i < |worlds|
    requires a < |worlds[i].published| && b < |worlds[i].published|
    requires jobs(worlds[i].published[a]).createNew && jobs(worlds[i].published[b]).createNew
    ensures a == b == 0 && Target !in worlds[0].names
  {
    RunInv(jobs, worlds, actions, i);
  }

  // A step of a create-new writer leaves an existing target alone.
  lemma CreateNewNeverOverwrites(jobs: nat -> Job, worlds: seq<World>, actions: seq<Action>, i: nat, j: nat)
    requires IsRun(jobs, worlds, actions) && j == i + 1 < |worlds|
    requires Target in worlds[i].names && jobs(actions[i].p).createNew
    ensures Target in worlds[j].names && worlds[j].names[Target] == worlds[i].names[Target]
    ensures Reads(worlds[j]) == Reads(worlds[i])
  {
    RunInv(jobs, worlds, actions, i);
    var w, p := worlds[i], actions[i].p;
    assert Next(jobs, w, actions[i], worlds[j]);
    assert WriterOk(jobs, w, p);
    if w.published != [] {
      assert w.published[|w.published| - 1] in w.published;
    }
  }

  // What a call that is over leaves behind. One that returned has published, and
  // one that did not publish is not what readers see. Its temporary name is gone
  // exactly when its removal, if it came to that, worked; left over, it names the
  // call's own file, whole when published and a part of the payload in any case.
  lemma EndedLeaves(jobs: nat -> Job, worlds: seq<World>, actions: seq<Action>, i: nat, p: nat)
    requires IsRun(jobs, worlds, actions) && i < |worlds| && PhaseOf(worlds[i], p).Ended?
    ensures var w := worlds[i];
      && (PhaseOf(w, p).end == Returned ==> p in w.published)
      && (p !in w.published ==> Target in w.names ==> w.names[Target] != Of(p))
      && (Temp(p) in w.names <==> PhaseOf(w, p).end == Stranded)
      && (Temp(p) in w.names ==>
            && w.names[Temp(p)] == Of(p) && Of(p) in w.contents && w.contents[Of(p)] <= jobs(p).payload
            && (p in w.published ==> w.contents[Of(p)] == jobs(p).payload))
  {
    RunInv(jobs, worlds, actions, i);
    var w := worlds[i];
    assert WriterOk(jobs, w, p);
    if w.published != [] {
      assert w.published[|w.published| - 1] in w.published;
    }
  }

  // A name left over stays, and with it the linked record keeps two names, for
  // the rest of the run: no other call touches it.
  lemma {:induction false} StrandedStays(jobs: nat -> Job, worlds: seq<World>, actions: seq<Action>, i: nat, j: nat,
                                       p: nat)
    requires IsRun(jobs, worlds, actions) && i <= j < |worlds|
    requires PhaseOf(worlds[i], p) == Ended(Stranded)
    ensures PhaseOf(worlds[j], p) == Ended(Stranded) && Temp(p) in worlds[j].names && worlds[j].names[Temp(p)] == Of(p)
    decreases j
  {
    RunInv(jobs, worlds, actions, j);
    assert WriterOk(jobs, worlds[j], p);
    if i < j {
      var h := j - 1;
      StrandedStays(jobs, worlds, actions, i, h, p);
      assert Next(jobs, worlds[h], actions[h], worlds[j]);
    }
  }
}
