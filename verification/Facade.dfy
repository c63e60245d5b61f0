// The MCP facade's two mutation tools: a fence on disk around every attempt,
// and a disposition that must be true whatever step fails.
module Facade {
  import opened Commons
  import opened Records
  import opened Overlap

  type Documents = map<string, Record>

  datatype Status = ActiveNow | TerminalReleased | Elsewise

  // What observation reports of one id, with the digest of the stored document.
  datatype Observed = Absent | Unknown | Known(status: Status, digest: Digest<Record>, generation: int)

  datatype Disposition = Ok(document: Record) | Refused | Uncertain

  // A candidate file as read: not a JSON object, or outside the repository; or a document.
  datatype Loaded = Unreadable | Loaded(document: Record)

  // What others have stored too, the fence, and of this server: how often it went
  // on to admission, and what it stored, oldest first.
  datatype State = State(documents: Documents, fence: bool, reached: nat, mine: seq<(string, Record)>)

  // Lease operations elsewhere never remove a document, never change a RELEASED
  // one, and raise the generation of any they replace.
  ghost predicate Advances(before: Documents, after: Documents) {
    forall id <- before ::
      && id in after && (after[id] != before[id] ==>
        after[id].generation > before[id].generation && before[id].state != Released)
  }

  lemma AdvancesFurther(a: Documents, b: Documents, c: Documents)
    requires Advances(a, b) && Advances(b, c)
    ensures Advances(a, c)
  {
    forall id <- a ensures id in c && (c[id] != a[id] ==> c[id].generation > a[id].generation && a[id].state != Released) {
      assert id in b;
    }
  }

  lemma StaysThere(a: Documents, b: Documents, id: string)
    requires Advances(a, b) && id in a
    ensures id in b && b[id].generation >= a[id].generation
    ensures a[id].state == Released ==> b[id] == a[id]
  {
  }

  lemma NothingMoves(documents: Documents)
    ensures Advances(documents, documents) && Stored(documents, []) == documents
  {
  }

  function Stored(documents: Documents, stores: seq<(string, Record)>): Documents {
    if stores == [] then documents
    else Stored(documents, stores[..|stores| - 1])[stores[|stores| - 1].0 := stores[|stores| - 1].1]
  }

  // What one call may do. `alone`: nobody else writes the lock root meanwhile.
  ghost predicate Call(alone: bool, s: State, d: Disposition, s': State) {
    && s.mine <= s'.mine && |s'.mine| <= |s.mine| + 1
    && (d.Refused? ==> s'.mine == s.mine)
    && (d.Ok? ==> d.document.leaseId.Some? && s'.mine == s.mine + [(d.document.leaseId.value, d.document)])
    // A fence found standing stays, and nothing behind it is reached.
    && (s.fence ==> s'.fence && s'.mine == s.mine && s'.reached == s.reached && !d.Ok?)
    // A fence left standing is always reported.
    && (s'.fence && !s.fence ==> d.Uncertain?)
    && s.reached <= s'.reached <= s.reached + 1
    && (s'.mine != s.mine ==> s'.reached == s.reached + 1)
    && Advances(s.documents, s'.documents)
    && (alone ==> s'.documents == Stored(s.documents, s'.mine[|s.mine|..]))
  }

  // What the call stored, if anything, is the candidate under its own id.
  predicate StoresOnly(before: seq<(string, Record)>, candidate: Loaded, after: seq<(string, Record)>) {
    || after == before
    || (candidate.Loaded? && candidate.document.leaseId.Some?
        && after == before + [(candidate.document.leaseId.value, candidate.document)])
  }

  class Server {
    const alone: bool
    var documents: Documents
    // The directory .mcp-operation.pending, and what stands in it and in staging.
    var fence: bool
    var metadata: bool
    var staged: bool
    var snapshot: Option<Record>
    // Calls that went on to acquire or release.
    ghost var reached: nat
    ghost var mine: seq<(string, Record)>

    ghost predicate Valid()
      reads this
    {
      !fence ==> !metadata && (snapshot.Some? ==> staged)
    }

    ghost function Fields(): State
      reads this
    {
      State(documents, fence, reached, mine)
    }

    constructor (documents: Documents, alone: bool)
      ensures Valid() && !fence && !staged && this.documents == documents && reached == 0 && mine == []
      ensures this.alone == alone
    {
      this.alone, mine := alone, [];
      this.documents, fence, metadata, staged, snapshot, reached := documents, false, false, false, None, 0;
    }

    // Whatever lease operations others complete in between.
    method Interfere()
      modifies this`documents
      ensures Advances(old(documents), documents) && (alone ==> documents == old(documents))
    {
      if !alone {
        var others: Documents := *;
        if forall id <- documents ::
             && id in others && (others[id] != documents[id] ==>
               others[id].generation > documents[id].generation && documents[id].state != Released)
        {
          documents := others;
        }
      }
    }

    // Observation never guesses: anything it cannot establish is Unknown.
    method Observe(id: string) returns (o: Observed)
      ensures o.Absent? ==> id !in documents
      ensures o.Known? ==> id in documents && o.digest == Sha256(documents[id]) && o.generation == documents[id].generation
      ensures o.Known? && o.status == ActiveNow ==> documents[id].state == Active
      ensures o.Known? && o.status == TerminalReleased ==> documents[id].state == Released
    {
      var works := Attempt();
      if !works { return Unknown; }
      if id !in documents { return Absent; }
      var doc := documents[id];
      var unexpired := Attempt();
      var status := if doc.state == Active && unexpired then ActiveNow
                    else if doc.state == Released then TerminalReleased else Elsewise;
      return Known(status, Sha256(doc), doc.generation);
    }

    // Lease admission as proved elsewhere: it publishes the candidate under a
    // free id or nothing, and may fail after publishing.
    method Acquire() returns (ok: bool)
      requires snapshot.Some? && snapshot.value.leaseId.Some?
      modifies this`documents, this`reached, this`mine
      ensures reached == old(reached) + 1 && Advances(old(documents), documents)
      ensures mine == old(mine) || mine == old(mine) + [(snapshot.value.leaseId.value, snapshot.value)]
      ensures ok ==> mine != old(mine)
      ensures mine != old(mine) ==> snapshot.value.leaseId.value !in old(documents)
                                    && snapshot.value.leaseId.value in documents
                                    && snapshot.value.state == Active && snapshot.value.generation == 1
      ensures alone ==> documents == Stored(old(documents), mine[|old(mine)|..])
    {
      Interfere();
      reached := reached + 1;
      var publishes := Attempt();
      var id := snapshot.value.leaseId.value;
      if !publishes || id in documents || snapshot.value.state != Active || snapshot.value.generation != 1 {
        return false;
      }
      documents, mine := documents[id := snapshot.value], mine + [(id, snapshot.value)];
      StoredOne(old(documents), id, snapshot.value);
      ok := Attempt();
    }

    // Release publishes the terminal candidate over its ACTIVE record or nothing.
    method Release(id: string, expected: int) returns (ok: bool)
      requires snapshot.Some?
      modifies this`documents, this`reached, this`mine
      ensures reached == old(reached) + 1 && Advances(old(documents), documents)
      ensures mine == old(mine) || (snapshot.value.leaseId == Some(id) && mine == old(mine) + [(id, snapshot.value)])
      ensures ok ==> mine != old(mine)
      ensures mine != old(mine) ==> (
        && id in documents && documents[id] == snapshot.value && snapshot.value.state == Released
        && snapshot.value.generation == expected + 1
        && (id in old(documents) ==> old(documents)[id].generation <= expected && old(documents)[id].state != Released))
      ensures mine != old(mine) && alone ==>
        id in old(documents) && old(documents)[id].state == Active && old(documents)[id].generation == expected
      ensures alone ==> documents == Stored(old(documents), mine[|old(mine)|..])
    {
      Interfere();
      reached := reached + 1;
      var publishes := Attempt();
      if !publishes || id !in documents || documents[id].state != Active || documents[id].generation != expected
         || snapshot.value.leaseId != Some(id) || snapshot.value.state != Released
         || snapshot.value.generation != expected + 1
      {
        return false;
      }
      documents, mine := documents[id := snapshot.value], mine + [(id, snapshot.value)];
      StoredOne(old(documents), id, snapshot.value);
      ok := Attempt();
    }

    // Fence, staging directory, metadata, snapshot, in that order, each made
    // durable before the next. `orphan` is the reconciliation error.
    method EnterSnapshot(document: Record) returns (entered: bool, orphan: bool)
      requires Valid()
      modifies this`fence, this`metadata, this`staged, this`snapshot
      ensures Valid()
      ensures entered ==> fence && !old(fence) && !old(staged) && staged && metadata && snapshot == Some(document)
      ensures old(fence) ==> fence && !entered && orphan
      ensures !entered && !old(fence) && fence ==> orphan
    {
      if fence { return false, true; }
      entered := Attempt();
      if !entered { return false, false; }
      fence := true;
      entered := Attempt();
      if entered {
        if staged { return false, true; }
        entered := Attempt();
      }
      if entered {
        staged, snapshot := true, None;
        entered := Attempt();
      }
      if entered {
        metadata := true;
        entered := Attempt();
      }
      if entered {
        snapshot := Some(document);
        entered := Attempt();
      }
      orphan := false;
      if !entered {
        var clean := LeaveSnapshot();
        orphan := !clean;
      }
    }

    // Removal in the opposite order. Only the last directory sync can fail with
    // the fence already gone.
    method LeaveSnapshot() returns (clean: bool)
      requires Valid() && fence
      modifies this`fence, this`metadata, this`staged, this`snapshot
      ensures Valid()
      ensures clean ==> !fence && !staged && !metadata && snapshot.None?
      ensures fence ==> !clean
    {
      if snapshot.Some? {
        clean := Attempt();
        if !clean { return; }
        snapshot := None;
      }
      if staged {
        clean := Attempt();
        if !clean { return; }
        staged := false;
        clean := Attempt();
        if !clean { return; }
      }
      if metadata {
        clean := Attempt();
        if !clean { return; }
        metadata := false;
      }
      clean := Attempt();
      if !clean { return; }
      fence := false;
      clean := Attempt();
    }

    // Refused only when observation can show that nothing changed.
    method MutationFailure(id: string, before: Observed, orphan: bool) returns (d: Disposition)
      modifies this`documents
      ensures Advances(old(documents), documents) && (alone ==> documents == old(documents))
      ensures d == Refused || d == Uncertain
      ensures d == Refused ==> !orphan && !before.Unknown?
      ensures d == Refused && before.Absent? ==> id !in documents
      ensures d == Refused && before.Known? ==>
        id in documents && Sha256(documents[id]) == before.digest && documents[id].generation == before.generation
    {
      Interfere();
      var after := Observe(id);
      return if !orphan && after == before && !after.Unknown? then Refused else Uncertain;
    }

    // What an observation made now says.
    ghost predicate Describes(o: Observed, id: string)
      reads this`documents
    {
      && (o.Absent? ==> id !in documents)
      && (o.Known? ==> id in documents && o.generation == documents[id].generation)
    }

    // ---- The tools ----

    // Inside the fence: admission, the fence's removal, and what is told of it.
    method Admit(doc: Record, id: string, before: Observed) returns (d: Disposition)
      requires Valid() && fence && snapshot == Some(doc) && doc.leaseId == Some(id) && Describes(before, id)
      modifies this
      ensures Valid() && Advances(old(documents), documents) && (fence ==> d.Uncertain?)
      ensures reached == old(reached) + 1 && (mine == old(mine) || mine == old(mine) + [(id, doc)])
      ensures alone ==> documents == Stored(old(documents), mine[|old(mine)|..])
      ensures d.Refused? ==> mine == old(mine)
      ensures d.Ok? ==> d.document == doc && mine == old(mine) + [(id, doc)] && doc.state == Active
                        && doc.generation == 1 && id !in old(documents)
    {
      hide Advances, Stored;
      var ok := Acquire();
      ghost var published := documents;
      var clean := LeaveSnapshot();
      if !ok || !clean {
        d := MutationFailure(id, before, !clean);
        AdvancesFurther(old(documents), published, documents);
        if mine != old(mine) { StaysThere(published, documents, id); }
        return;
      }
      // The record is read back and observed once more.
      Interfere();
      ghost var readBack := documents;
      AdvancesFurther(old(documents), published, readBack);
      StaysThere(published, readBack, id);
      var readable := Attempt();
      if !readable {
        d := MutationFailure(id, before, false);
        AdvancesFurther(old(documents), readBack, documents);
        StaysThere(readBack, documents, id);
        return;
      }
      if documents[id].leaseId != Some(id) || Sha256(documents[id]) != Sha256(doc) { return Uncertain; }
      Interfere();
      AdvancesFurther(old(documents), readBack, documents);
      var authority := Observe(id);
      if !authority.Known? || authority.status != ActiveNow { return Uncertain; }
      return Ok(doc);
    }

    method AdmitWriter(candidate: Loaded) returns (d: Disposition)
      requires Valid()
      modifies this
      ensures Valid() && Call(alone, old(Fields()), d, Fields())
      ensures StoresOnly(old(mine), candidate, mine)
      ensures d.Ok? ==> candidate == Loaded(d.document) && d.document.schema == V2 && d.document.state == Active
                        && d.document.generation == 1 && d.document.leaseId.value !in old(documents)
    {
      hide Advances, Stored, SafeId;
      NothingMoves(documents);
      assert mine[|mine|..] == [];
      if candidate.Unreadable? || candidate.document.schema != V2
         || candidate.document.leaseId.None? || !SafeId(candidate.document.leaseId.value)
      {
        return Refused;
      }
      var doc, id := candidate.document, candidate.document.leaseId.value;
      Interfere();
      ghost var seen := documents;
      var before := Observe(id);
      if before.Unknown? { return Uncertain; }
      var entered, orphan := EnterSnapshot(doc);
      if entered {
        d := Admit(doc, id, before);
        AdvancesFurther(old(documents), seen, documents);
        if id in old(documents) { StaysThere(old(documents), seen, id); }
      } else if orphan {
        d := MutationFailure(id, before, true);
        AdvancesFurther(old(documents), seen, documents);
      } else {
        d := Refused;
      }
    }

    method Close(doc: Record, id: string, expected: int, before: Observed) returns (d: Disposition)
      requires Valid() && fence && snapshot == Some(doc) && doc.leaseId == Some(id) && Describes(before, id)
      modifies this
      ensures Valid() && Advances(old(documents), documents) && (fence ==> d.Uncertain?)
      ensures reached == old(reached) + 1 && (mine == old(mine) || mine == old(mine) + [(id, doc)])
      ensures alone ==> documents == Stored(old(documents), mine[|old(mine)|..])
      ensures d.Refused? ==> mine == old(mine)
      ensures d.Ok? ==> d.document == doc && mine == old(mine) + [(id, doc)] && doc.state == Released
                        && doc.generation == expected + 1 && id in documents && documents[id] == doc
      ensures d.Ok? && id in old(documents) ==>
        old(documents)[id].generation <= expected && old(documents)[id].state != Released
      ensures d.Ok? && alone ==>
        id in old(documents) && old(documents)[id].state == Active && old(documents)[id].generation == expected
    {
      hide Advances, Stored;
      var ok := Release(id, expected);
      ghost var published := documents;
      var clean := LeaveSnapshot();
      if !ok || !clean {
        d := MutationFailure(id, before, !clean);
        AdvancesFurther(old(documents), published, documents);
        if mine != old(mine) { StaysThere(published, documents, id); }
        return;
      }
      Interfere();
      AdvancesFurther(old(documents), published, documents);
      StaysThere(published, documents, id);
      var custody := Observe(id);
      if !custody.Known? || custody.status != TerminalReleased { return Uncertain; }
      return Ok(doc);
    }

    method ReleaseWriter(id: string, expected: int, candidate: Loaded) returns (d: Disposition)
      requires Valid()
      modifies this
      ensures Valid() && Call(alone, old(Fields()), d, Fields())
      ensures StoresOnly(old(mine), candidate, mine)
      ensures d.Ok? ==> candidate == Loaded(d.document) && d.document.state == Released
                        && d.document.leaseId == Some(id) && d.document.generation == expected + 1
                        && id in documents && documents[id] == d.document
      ensures d.Ok? && id in old(documents) ==>
        old(documents)[id].generation <= expected && old(documents)[id].state != Released
      ensures d.Ok? && alone ==>
        id in old(documents) && old(documents)[id].state == Active && old(documents)[id].generation == expected
    {
      hide Advances, Stored, SafeId;
      NothingMoves(documents);
      assert mine[|mine|..] == [];
      if !SafeId(id) || candidate.Unreadable? || candidate.document.leaseId != Some(id) { return Refused; }
      var doc := candidate.document;
      Interfere();
      ghost var seen := documents;
      var before := Observe(id);
      if before.Unknown? { return Uncertain; }
      var entered, orphan := EnterSnapshot(doc);
      if entered {
        d := Close(doc, id, expected, before);
        AdvancesFurther(old(documents), seen, documents);
        if id in old(documents) { StaysThere(old(documents), seen, id); }
      } else if orphan {
        d := MutationFailure(id, before, true);
        AdvancesFurther(old(documents), seen, documents);
      } else {
        d := Refused;
      }
    }
  }

  lemma StoredOne(documents: Documents, id: string, doc: Record)
    ensures Stored(documents, [(id, doc)]) == documents[id := doc]
  {
    assert Stored(documents, [(id, doc)][..0]) == documents;
  }

  // ---- Runs of calls ----

  ghost predicate IsRun(alone: bool, states: seq<State>, answers: seq<Disposition>) {
    && |states| == |answers| + 1
    && forall i, j :: 0 <= i && j == i + 1 && j < |states| ==> Call(alone, states[i], answers[i], states[j])
  }

  // Once a fence stands unresolved, no later call reaches lease admission,
  // stores anything, or succeeds.
  lemma {:induction false} FenceHoldsForever(alone: bool, states: seq<State>, answers: seq<Disposition>, i: nat, j: nat)
    requires IsRun(alone, states, answers) && i <= j < |states| && states[i].fence
    ensures states[j].fence && states[j].mine == states[i].mine && states[j].reached == states[i].reached
    ensures alone ==> states[j] == states[i]
    ensures j < |answers| ==> !answers[j].Ok?
    decreases j
  {
    if i < j {
      var h := j - 1;
      FenceHoldsForever(alone, states, answers, i, h);
      assert Call(alone, states[h], answers[h], states[j]);
    }
    if j < |answers| {
      var k := j + 1;
      assert Call(alone, states[j], answers[j], states[k]);
    }
  }

  // If every call of a run was refused, this server stored nothing.
  lemma {:induction false} RefusalsChangeNothing(alone: bool, states: seq<State>, answers: seq<Disposition>, j: nat)
    requires IsRun(alone, states, answers) && j < |states| && forall i :: 0 <= i < j ==> answers[i].Refused?
    ensures states[j].mine == states[0].mine && (alone ==> states[j].documents == states[0].documents)
  {
    if j > 0 {
      var h := j - 1;
      RefusalsChangeNothing(alone, states, answers, h);
      assert Call(alone, states[h], answers[h], states[j]);
    }
  }

  function Granted(answers: seq<Disposition>): nat {
    if answers == [] then 0
    else Granted(answers[..|answers| - 1]) + if answers[|answers| - 1].Ok? then 1 else 0
  }

  function Doubtful(answers: seq<Disposition>): nat {
    if answers == [] then 0
    else Doubtful(answers[..|answers| - 1]) + if answers[|answers| - 1].Uncertain? then 1 else 0
  }

  // What this server has stored is bounded by its answers, whatever others do:
  // one record for each OK, and at most one more for each UNCERTAIN.
  lemma {:induction false} AnswersAccountForStores(alone: bool, states: seq<State>, answers: seq<Disposition>, j: nat)
    requires IsRun(alone, states, answers) && j <= |answers|
    ensures states[0].mine <= states[j].mine && Advances(states[0].documents, states[j].documents)
    ensures Granted(answers[..j]) <= |states[j].mine| - |states[0].mine|
         <= Granted(answers[..j]) + Doubtful(answers[..j])
  {
    if j > 0 {
      var h := j - 1;
      AnswersAccountForStores(alone, states, answers, h);
      assert Call(alone, states[h], answers[h], states[j]);
      AdvancesFurther(states[0].documents, states[h].documents, states[j].documents);
      assert answers[..j][..h] == answers[..h];
    }
  }
}
