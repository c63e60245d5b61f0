// Owner decisions: the predecessor walk and the check of a decision built on it.
module Decisions {
  import opened Commons
  import opened Records
  import opened Grammar
  import opened Overlap

  datatype Problem =
    | Unloadable | OutsideRoot | BadSequence | RootHasPredecessor | PredecessorMissing
    | PredecessorNotPortable | Cycle
    | SchemaInvalid | NotV2 | MarkdownUnbound | RunMismatch | NotContiguous | NotAccepted
    | ActionNotAuthorized | LeaseIdInvalid | GenerationInvalid | DigestMissing
    | LeaseIdMismatch | GenerationMismatch

  predicate PositiveSequence(sequence: Option<int>, safe: bool) {
    sequence.Some? && sequence.value >= 1 && (safe ==> IsSafeInteger(sequence.value))
  }

  // Where a predecessor reference leads, when its syntax is acceptable.
  predicate Leads(store: Store, d: Decision, portable: bool, to: Location) {
    && d.previous.Reference? && d.previous.text != ""
    && (portable ==> PortableReference(d.previous.text))
    && d.previous.text in store.references && store.references[d.previous.text] == to
  }

  predicate Member(d: Decision, runId: string) {
    d.schemaValid && d.isV2 && d.markdownBound && d.runId == runId && d.accepted
  }

  function MemberProblems(d: Decision, runId: string, expected: int): (problems: seq<Problem>)
    ensures problems == [] <==> Member(d, runId) && d.sequence == Some(expected)
  {
    (if d.schemaValid then [] else [SchemaInvalid])
    + (if d.isV2 then [] else [NotV2])
    + (if d.markdownBound then [] else [MarkdownUnbound])
    + (if d.runId == runId then [] else [RunMismatch])
    + (if d.sequence == Some(expected) then [] else [NotContiguous])
    + (if d.accepted then [] else [NotAccepted])
  }

  // From the file at `at`, references count down n, n-1, ..., 1: each leads to
  // an accepted member of the run and only sequence 1 has no predecessor.
  predicate Descends(store: Store, at: Location, runId: string, portable: bool, n: int)
    decreases n
  {
    && n >= 1 && at in store.decisions
    && store.decisions[at].sequence == Some(n) && PositiveSequence(Some(n), portable)
    && if n == 1 then store.decisions[at].previous.NoReference?
       else
         && Predecessor(store, at, portable).Some?
         && var next := Predecessor(store, at, portable).value;
         && next in store.decisions && Member(store.decisions[next], runId)
         && Descends(store, next, runId, portable, n - 1)
  }

  function Predecessor(store: Store, at: Location, portable: bool): (to: Option<Location>)
    requires at in store.decisions
    ensures forall l :: to == Some(l) <==> Leads(store, store.decisions[at], portable, l)
  {
    var d := store.decisions[at];
    if d.previous.Reference? && d.previous.text != "" && (portable ==> PortableReference(d.previous.text))
       && d.previous.text in store.references
    then Some(store.references[d.previous.text])
    else None
  }

  predicate HasChain(store: Store, start: Location, runId: string, portable: bool) {
    && start in store.decisions && store.decisions[start].sequence.Some?
    && Descends(store, start, runId, portable, store.decisions[start].sequence.value)
  }

  // The files such a descent visits, the start first.
  function Visited(store: Store, at: Location, runId: string, portable: bool, n: int): (files: seq<Location>)
    requires Descends(store, at, runId, portable, n)
    ensures |files| == n && files[0] == at
    decreases n
  {
    if n == 1 then [at]
    else [at] + Visited(store, Predecessor(store, at, portable).value, runId, portable, n - 1)
  }

  // b is the accepted predecessor that a names.
  predicate Follows(store: Store, runId: string, portable: bool, a: Location, b: Location) {
    && a in store.decisions && b in store.decisions
    && Leads(store, store.decisions[a], portable, b) && Member(store.decisions[b], runId)
  }

  predicate HasSequence(store: Store, at: Location, n: int) {
    at in store.decisions && store.decisions[at].sequence == Some(n)
  }

  // The same chain written out as a list of files.
  ghost predicate Chain(store: Store, start: Location, runId: string, portable: bool, files: seq<Location>) {
    && files != [] && files[0] == start && PositiveSequence(Some(|files|), portable)
    && (forall i :: 0 <= i < |files| ==> HasSequence(store, files[i], |files| - i))
    && (forall i, j :: 0 <= i < |files| && j == i + 1 < |files| ==>
          Follows(store, runId, portable, files[i], files[j]))
    && store.decisions[files[|files| - 1]].previous.NoReference?
  }

  lemma {:induction false} VisitedIsChain(store: Store, at: Location, runId: string, portable: bool, n: int)
    requires Descends(store, at, runId, portable, n)
    ensures Chain(store, at, runId, portable, Visited(store, at, runId, portable, n))
    decreases n
  {
    if n > 1 {
      var next := Predecessor(store, at, portable).value;
      VisitedIsChain(store, next, runId, portable, n - 1);
      var rest := Visited(store, next, runId, portable, n - 1);
      var files := [at] + rest;
      assert files == Visited(store, at, runId, portable, n);
      forall i | 0 <= i < |files| ensures HasSequence(store, files[i], |files| - i) {
        assert i > 0 ==> files[i] == rest[i - 1] && HasSequence(store, rest[i - 1], |rest| - (i - 1));
      }
      forall i, j | 0 <= i < |files| && j == i + 1 < |files|
        ensures Follows(store, runId, portable, files[i], files[j])
      {
        if i > 0 {
          assert files[i] == rest[i - 1] && files[j] == rest[j - 1];
        }
      }
    }
  }

  lemma {:induction false} ChainDescends(store: Store, start: Location, runId: string, portable: bool,
                                         files: seq<Location>, k: nat)
    requires Chain(store, start, runId, portable, files) && k < |files|
    ensures Descends(store, files[k], runId, portable, |files| - k)
    decreases |files| - k
  {
    assert HasSequence(store, files[k], |files| - k);
    if k + 1 < |files| {
      ChainDescends(store, start, runId, portable, files, k + 1);
      var j := k + 1;
      assert Follows(store, runId, portable, files[k], files[j]);
      assert Predecessor(store, files[k], portable) == Some(files[j]);
    }
  }

  // Counting down along references and listing the files are the same thing.
  lemma ChainIsListed(store: Store, start: Location, runId: string, portable: bool)
    ensures HasChain(store, start, runId, portable)
       <==> exists files :: Chain(store, start, runId, portable, files)
  {
    if HasChain(store, start, runId, portable) {
      VisitedIsChain(store, start, runId, portable, store.decisions[start].sequence.value);
    }
    if exists files :: Chain(store, start, runId, portable, files) {
      var files :| Chain(store, start, runId, portable, files);
      ChainDescends(store, start, runId, portable, files, 0);
      assert HasSequence(store, files[0], |files|);
    }
  }

  // No file occurs twice in a chain, so a repeated file always means no chain.
  lemma ChainIsAcyclic(store: Store, start: Location, runId: string, portable: bool,
                       files: seq<Location>, i: nat, j: nat)
    requires Chain(store, start, runId, portable, files)
    requires i < j < |files|
    ensures files[i] != files[j]
  {
    assert HasSequence(store, files[i], |files| - i);
    assert HasSequence(store, files[j], |files| - j);
  }

  lemma ChainStep(store: Store, at: Location, runId: string, portable: bool)
    requires at in store.decisions
    requires PositiveSequence(store.decisions[at].sequence, portable)
    ensures store.decisions[at].sequence.value == 1 ==>
      (HasChain(store, at, runId, portable) <==> store.decisions[at].previous.NoReference?)
    ensures store.decisions[at].sequence.value > 1 ==>
      (HasChain(store, at, runId, portable) <==>
         && Predecessor(store, at, portable).Some?
         && var next := Predecessor(store, at, portable).value;
         && next in store.decisions && Member(store.decisions[next], runId)
         && store.decisions[next].sequence == Some(store.decisions[at].sequence.value - 1)
         && HasChain(store, next, runId, portable))
  {
    var n := store.decisions[at].sequence.value;
    assert HasChain(store, at, runId, portable) <==> Descends(store, at, runId, portable, n);
    if n > 1 && Predecessor(store, at, portable).Some? {
      var next := Predecessor(store, at, portable).value;
      assert Descends(store, next, runId, portable, n - 1)
        ==> next in store.decisions && store.decisions[next].sequence == Some(n - 1);
    }
  }

  // The walk follows references until it must stop. A sequence that does not
  // count down only adds a problem, so the measure is the files not yet seen.
  method VerifyPredecessorChain(store: Store, start: Location, runId: string, portable: bool)
    returns (problems: seq<Problem>)
    requires start in store.decisions
    ensures problems == [] <==> HasChain(store, start, runId, portable)
  {
    problems := [];
    var at := start;
    var seen := {start};
    while true
      invariant at in store.decisions && at in seen
      invariant problems == [] ==>
        (HasChain(store, start, runId, portable) <==> HasChain(store, at, runId, portable))
      invariant problems != [] ==> !HasChain(store, start, runId, portable)
      invariant problems == [] && store.decisions[at].sequence.Some? ==> forall file <- seen ::
        file in store.decisions && store.decisions[file].sequence.Some?
        && store.decisions[file].sequence.value >= store.decisions[at].sequence.value
      decreases store.decisions.Keys - seen
    {
      var current := store.decisions[at];
      if !PositiveSequence(current.sequence, portable) {
        problems := problems + [BadSequence];
        break;
      }
      ChainStep(store, at, runId, portable);
      if current.sequence.value == 1 {
        if !current.previous.NoReference? {
          problems := problems + [RootHasPredecessor];
        }
        break;
      }
      if !current.previous.Reference? || current.previous.text == "" {
        problems := problems + [PredecessorMissing];
        break;
      }
      if portable && !PortableReference(current.previous.text) {
        problems := problems + [PredecessorNotPortable];
        break;
      }
      if current.previous.text !in store.references {
        problems := problems + [OutsideRoot];
        break;
      }
      var previous := store.references[current.previous.text];
      assert Predecessor(store, at, portable) == Some(previous);
      if previous in seen {
        problems := problems + [Cycle];
        break;
      }
      seen := seen + {previous};
      if previous !in store.decisions {
        problems := problems + [Unloadable];
        break;
      }
      problems := problems + MemberProblems(store.decisions[previous], runId, current.sequence.value - 1);
      at := previous;
    }
  }

  // What an accepted decision certifies. A caller may leave the lease or its
  // generation open; a lease operation never does.
  predicate Authorises(d: Decision, runId: string, action: string,
                       leaseId: Option<string>, generation: Option<int>, requireDigest: bool) {
    && d.schemaValid && d.isV2 && d.markdownBound && d.runId == runId && d.accepted
    && Permits(d, action, leaseId, generation, requireDigest)
  }

  predicate Permits(d: Decision, action: string, leaseId: Option<string>, generation: Option<int>, requireDigest: bool) {
    && action in d.actions
    && (leaseId.Some? ==> d.leaseId == leaseId) && (generation.Some? ==> d.leaseGeneration == generation)
    && (requireDigest ==>
          && d.leaseId.Some? && SafeId(d.leaseId.value)
          && d.leaseGeneration.Some? && d.leaseGeneration.value >= 1 && IsSafeInteger(d.leaseGeneration.value)
          && d.digest.Some?)
  }

  predicate Accepts(store: Store, at: Location, runId: string, action: string,
                    leaseId: Option<string>, generation: Option<int>, requireDigest: bool) {
    && at in store.decisions
    && Authorises(store.decisions[at], runId, action, leaseId, generation, requireDigest)
    && HasChain(store, at, runId, requireDigest)
  }

  method BindingProblems(d: Decision, action: string, leaseId: Option<string>, generation: Option<int>,
                         requireDigest: bool) returns (problems: seq<Problem>)
    ensures problems == [] <==> Permits(d, action, leaseId, generation, requireDigest)
  {
    hide SafeId, IsSafeInteger;
    problems := [];
    if action !in d.actions { problems := problems + [ActionNotAuthorized]; }
    if requireDigest {
      if d.leaseId.None? || !SafeId(d.leaseId.value) { problems := problems + [LeaseIdInvalid]; }
      if d.leaseGeneration.None? || !IsSafeInteger(d.leaseGeneration.value) || d.leaseGeneration.value < 1 {
        problems := problems + [GenerationInvalid];
      }
      if d.digest.None? { problems := problems + [DigestMissing]; }
    }
    if leaseId.Some? && d.leaseId != leaseId { problems := problems + [LeaseIdMismatch]; }
    if generation.Some? && d.leaseGeneration != generation { problems := problems + [GenerationMismatch]; }
  }

  method VerifyDecision(store: Store, at: Location, runId: string, action: string,
                        leaseId: Option<string>, generation: Option<int>, requireDigest: bool)
    returns (problems: seq<Problem>)
    ensures problems == [] <==> Accepts(store, at, runId, action, leaseId, generation, requireDigest)
  {
    if at !in store.decisions {
      return [Unloadable];
    }
    var d := store.decisions[at];
    problems := [];
    if !d.schemaValid { problems := problems + [SchemaInvalid]; }
    if !d.isV2 { problems := problems + [NotV2]; }
    if d.runId != runId { problems := problems + [RunMismatch]; }
    if !d.accepted { problems := problems + [NotAccepted]; }
    ghost var bad := problems != [];
    assert bad <==> !(d.schemaValid && d.isV2 && d.runId == runId && d.accepted);
    var positive := PositiveSequence(d.sequence, requireDigest);
    if !positive { problems := problems + [BadSequence]; }
    if d.sequence == Some(1) && !d.previous.NoReference? { problems := problems + [RootHasPredecessor]; }
    if positive && d.sequence.value > 1 {
      var more := VerifyPredecessorChain(store, at, runId, requireDigest);
      problems := problems + more;
    }
    ghost var chained := problems != [];
    assert chained <==> bad || !HasChain(store, at, runId, requireDigest);
    var more := BindingProblems(d, action, leaseId, generation, requireDigest);
    problems := problems + more;
    if !d.markdownBound { problems := problems + [MarkdownUnbound]; }
  }
}
