// One lease that lives its whole life: acquired, replaced, released. It meets
// the hypotheses of the theorems about runs, and shows the inputs at which the
// protocol and its readers disagree.
module Example {
  import opened Commons
  import opened Text
  import opened Records
  import opened Grammar
  import opened Repositories
  import opened Scopes
  import opened ScopeFixpoints
  import opened Decisions
  import opened Overlap
  import opened Coverage
  import opened Lifecycle
  import opened LockRoot
  import opened Admission
  import opened AdmissionSafety
  import opened Reachability
  import opened Lineage
  import opened Progress

  const REPOSITORY := "o/r"
  const COORDINATION := "o/c"

  function First(): Record {
    Record(V2, Some("l"), "r", Active, 1, Some(0), Some(0), Some(10), "me", Some(COORDINATION),
           [Item(REPOSITORY, Some(Read), None, None, None, None)], [], [],
           None, Some("d"), None, None, None, None, None)
  }

  function Second(): Record {
    First().(generation := 2, decisionRef := Some("e"))
  }

  function Third(): Record {
    Second().(state := Released, generation := 3, releaseDecisionRef := Some("f"), releaseAuthority := Some(Normal),
              released := Some(5), outcomeRef := Some("o"), outcomeSha := Some("s"))
  }

  function DecisionOn(r: Record, previous: Reference, action: string): Decision {
    Decision(true, true, true, "r", Some(r.generation), true, previous, [action], Some("l"), Some(r.generation),
             Some(Sha256(r)), Some([REPOSITORY, COORDINATION]))
  }

  // The first decision is at hand under two texts; the second names it by `back`.
  function TheContext(posix: bool, back: string): Context {
    Context(
      Store(map["d" := "/1", "a" := "/1", "e" := "/2", "f" := "/3", "o" := "/o"],
            map["/1" := DecisionOn(First(), NoReference, "lease:acquire"),
                "/2" := DecisionOn(Second(), Reference(back), "lease:expand"),
                "/3" := DecisionOn(Third(), Reference("e"), "lease:release")],
            map["/o" := "s"]),
      LexicalHost(posix))
  }

  // Whose claims are the two repositories alone.
  predicate ClaimsTwo(r: Record) {
    && r.schema == V2 && r.coordination == Some(COORDINATION) && r.localScopes == [] && r.infrastructure == []
    && r.repositories == [Item(REPOSITORY, Some(Read), None, None, None, None)]
  }

  lemma ShortOwnerName(s: string)
    requires |s| == 3 && NameStart(s[0]) && s[1] == '/' && NameStart(s[2])
    ensures RepositoryName(s)
  {
    hide Find;
    assert s[1..][0] == '/';
    FindIsFirst(s, "/");
    assert OccursAt(s, "/", 1) && !OccursAt(s, "/", 0);
    assert Find(s, "/") == 1;
    assert s[..1] == [s[0]] && s[2..] == [s[2]];
  }

  lemma ShortName(s: string)
    requires |s| == 3 && NameStart(s[0]) && s[1] == '/' && NameStart(s[2])
    ensures RepositoryName(s) && V2Name(s) && StructuralName(s)
    ensures CanonicalRepoV2(s) == s && CanonicalRepo(s) == s
  {
    hide OwnerName, CanonicalRepo, CanonicalRepoV2, EndsWith, Fold;
    ShortOwnerName(s);
    NameChars(s);
    RepositoryNameFixed(s);
    LegacyIdentity(s);
    ShortStructure(s);
  }

  lemma ShortStructure(s: string)
    requires |s| == 3 && NameStart(s[0]) && s[1] == '/' && NameStart(s[2])
    ensures StructuralName(s)
  {
    assert s[1] == '/' && forall i :: 0 <= i < |s| && i != 1 ==> s[i] != '/' && !IsSpace(s[i]);
  }

  // A lease that reads the one repository, and no more than that.
  predicate ReadsOne(r: Record) {
    && r.schema == V2 && r.coordination == Some(COORDINATION) && r.localScopes == [] && r.activeWriter.None?
    && |r.repositories| == 1 && r.repositories[0].Item?
    && var item := r.repositories[0];
    && item.repository == REPOSITORY && item.mode == Some(Read)
    && item.canonicalPath.None? && item.worktreeRoot.None? && item.exactSha.None?
  }

  predicate Dated(r: Record) {
    && r.leaseId == Some("l") && r.runId == "r" && r.owner == "me"
    && r.created == Some(0) && r.heartbeat == Some(0) && r.expires == Some(10)
  }

  lemma NamesAreSound()
    ensures forall s :: s == REPOSITORY || s == COORDINATION ==>
      Chomp(s) == s && V2Name(s) && StructuralName(s) && CanonicalRepoV2(s) == s && CanonicalRepo(s) == s
  {
    hide CanonicalRepoV2, CanonicalRepo, StructuralName, V2Name, RepositoryName, Chomp;
    ShortName(REPOSITORY);
    ShortName(COORDINATION);
    NoNewline(REPOSITORY);
    NoNewline(COORDINATION);
  }

  lemma SchemaHolds(r: Record)
    requires ReadsOne(r) && Dated(r) && r.state != OtherState && 1 <= r.generation <= 3 && Distinct(r.infrastructure)
    requires r.repositories[0].branchRef.Some? ==> BranchRef(Chomp(r.repositories[0].branchRef.value))
    ensures SchemaValid(r)
  {
    hide CanonicalRepoV2, CanonicalRepo, StructuralName, V2Name, BranchRef, Chomp, SafeId;
    NamesAreSound();
    IdsAreSafe();
  }

  lemma IdsAreSafe()
    ensures SafeId(Chomp("l")) && SafeId(Chomp("r"))
  {
  }

  lemma ReadsOneIsValid(host: Host, r: Record)
    requires ReadsOne(r) && SchemaValid(r) && V2Lifecycle(r)
    ensures ValidLease(host, r, false, true) && ValidLease(host, r, true, true)
  {
    hide CanonicalRepoV2, CanonicalRepo, SchemaValid, V2Lifecycle, StructuralName, V2Name, Chomp;
    NamesAreSound();
    assert Canonicalizer(r)(REPOSITORY) == REPOSITORY && Canonicalizer(r)(COORDINATION) == COORDINATION;
    assert Identities(r) == [REPOSITORY];
  }

  lemma TheyAreValid(host: Host, r: Record)
    requires r == First() || r == Second() || r == Third()
    ensures ValidLease(host, r, false, true) && ValidLease(host, r, true, true)
  {
    hide ValidLease, SchemaValid, V2Lifecycle;
    SchemaHolds(r);
    LifecycleHolds(r);
    ReadsOneIsValid(host, r);
  }

  lemma LifecycleHolds(r: Record)
    requires r == First() || r == Second() || r == Third()
    ensures V2Lifecycle(r)
  {
    hide V2AbsoluteScope, Strip;
    assert WriterItems(r.repositories) == [];
  }

  lemma NoNewline(s: string)
    requires |s| == 3 && NameStart(s[2])
    ensures Chomp(s) == s
  {
  }

  lemma SplitOne(s: string)
    requires |s| == 1 && s[0] != '/'
    ensures Split(s) == [s]
  {
    var rest := Split(s[1..]);
    assert s[1..] == "" && rest == [""];
    assert [s[0]] + rest[0] == s;
    assert rest[1..] == [];
  }

  lemma OneLetterIsPortable(s: string)
    requires |s| == 1 && 'a' <= s[0] <= 'z'
    ensures PortableReference(s)
  {
    SplitOne(s);
    assert BeforeDot(s) == s && Fold(s) == s;
  }

  lemma ItsClaims(host: Host, r: Record, kind: Kind, id: string, mode: Mode)
    requires ClaimsTwo(r) && Claims(host, r, kind, id, mode)
    ensures id in [REPOSITORY, COORDINATION]
  {
    hide CanonicalRepoV2, CanonicalRepo, V2Name, StructuralName, RepositoryName, Fold, Strip, OverlapIdentities;
    BothIdentities(REPOSITORY);
    BothIdentities(COORDINATION);
    if kind == Coordination {
      assert id in OverlapIdentities(COORDINATION, true);
    } else {
      assert FromItem(host, r, kind, id, mode);
      assert id in ItemClaims(host, r, r.repositories[0], kind);
    }
  }

  lemma BothIdentities(s: string)
    requires |s| == 3 && NameStart(s[0]) && s[1] == '/' && NameStart(s[2])
    ensures OverlapIdentities(s, true) == {s}
  {
    hide CanonicalRepoV2, CanonicalRepo, V2Name, StructuralName, RepositoryName;
    ShortName(s);
  }

  lemma DecisionCovers(host: Host, r: Record, d: Decision)
    requires Lexical(host) && ClaimsTwo(r)
    requires d.scope == Some([REPOSITORY, COORDINATION]) && d.digest == Some(Sha256(r))
    ensures ScopeBinds(host, r, d)
  {
    hide Lexical, Claims, CanonicalEntry, RepositoryName, V2Name, StructuralName, CanonicalRepoV2, CanonicalRepo, Strip;
    var scope := [REPOSITORY, COORDINATION];
    ShortName(REPOSITORY);
    ShortName(COORDINATION);
    NameIsEntry(host, REPOSITORY);
    NameIsEntry(host, COORDINATION);
    forall kind, id, mode | Claims(host, r, kind, id, mode) ensures id in scope {
      ItsClaims(host, r, kind, id, mode);
    }
    assert Covers(host, r, scope);
  }

  predicate NamesFirst(back: string) {
    back == "d" || back == "a"
  }

  // A decision on a record at the head of its chain binds it.
  lemma OneIsBound(c: Context, r: Record, at: Location, previous: Reference, action: string)
    requires Lexical(c.host) && ClaimsTwo(r) && r.leaseId == Some("l") && r.runId == "r" && 1 <= r.generation <= 3
    requires at in c.store.decisions && c.store.decisions[at] == DecisionOn(r, previous, action)
    requires Descends(c.store, at, "r", true, r.generation)
    ensures Binds(c.store, c.host, r, at, action)
  {
    hide ScopeBinds, Lexical, Descends;
    DecisionCovers(c.host, r, c.store.decisions[at]);
    assert action in c.store.decisions[at].actions;
    assert SafeId("l");
  }

  lemma TheyDescend(posix: bool, back: string)
    requires NamesFirst(back)
    ensures var store := TheContext(posix, back).store;
      Descends(store, "/1", "r", true, 1) && Descends(store, "/2", "r", true, 2) && Descends(store, "/3", "r", true, 3)
  {
    hide PortableReference, LexicalHost;
    OneLetterIsPortable(back);
    OneLetterIsPortable("e");
    var store := TheContext(posix, back).store;
    assert Descends(store, "/1", "r", true, 1);
    assert Descends(store, "/2", "r", true, 2);
  }

  // Each decision binds its record.
  lemma TheyAreBound(posix: bool, back: string)
    requires NamesFirst(back)
    ensures var c := TheContext(posix, back);
      && Binds(c.store, c.host, First(), "/1", "lease:acquire")
      && Binds(c.store, c.host, Second(), "/2", "lease:expand")
      && Binds(c.store, c.host, Third(), "/3", "lease:release")
  {
    hide Descends, Binds, Lexical, LexicalHost;
    var c := TheContext(posix, back);
    LexicalHostIsLexical(posix);
    TheyDescend(posix, back);
    OneIsBound(c, First(), "/1", NoReference, "lease:acquire");
    OneIsBound(c, Second(), "/2", Reference(back), "lease:expand");
    OneIsBound(c, Third(), "/3", Reference("e"), "lease:release");
  }

  // ---- Its run ----

  function Start(): World {
    World(5, None, 0, map[], map[], map[], map[])
  }

  function Closing(): Operation {
    Release("l", 2, Some(Third()), "")
  }

  lemma TheyPass(posix: bool, back: string)
    requires NamesFirst(back)
    ensures var c := TheContext(posix, back);
      && AcquireValid(c.store, c.host, First())
      && ReplaceValid(c.store, c.host, Second(), First(), 1)
      && ReleaseShape(c.host, Third(), Second(), "l", 2)
      && ReleaseAuthorised(c.store, c.host, Third(), Second(), 5)
  {
    hide ValidLease, Succeeds, Bound, LexicalHost, ReleaseAuthorised;
    var c := TheContext(posix, back);
    FirstTwoPass(posix, back);
    ThirdPasses(posix, back);
    TheyAreValid(c.host, First());
    TheyAreValid(c.host, Second());
    TheyAreValid(c.host, Third());
  }

  lemma FirstTwoPass(posix: bool, back: string)
    requires NamesFirst(back)
    ensures var c := TheContext(posix, back);
      && Bound(c.store, c.host, First(), "/1", "lease:acquire")
      && Succeeds(c.store, c.host, Second(), First(), "/2", "/1")
  {
    hide Binds, PortableReference, LexicalHost;
    var c := TheContext(posix, back);
    TheyAreBound(posix, back);
    OneLetterIsPortable("d");
    OneLetterIsPortable("a");
    OneLetterIsPortable("e");
    assert Bound(c.store, c.host, First(), "/1", "lease:acquire");
    assert Bound(c.store, c.host, Second(), "/2", "lease:expand");
  }

  lemma ThirdPasses(posix: bool, back: string)
    requires NamesFirst(back)
    ensures var c := TheContext(posix, back); ReleaseAuthorised(c.store, c.host, Third(), Second(), 5)
  {
    hide Binds, PortableReference, LexicalHost;
    var c := TheContext(posix, back);
    TheyAreBound(posix, back);
    OneLetterIsPortable("e");
    OneLetterIsPortable("f");
    OneLetterIsPortable("o");
    assert RebuiltActive(Third()) == Second() by { assert Writers(Third()) == []; }
    assert TerminalEvidence(c.store, c.host, Third(), "/3", "/2");
  }

  // The run acquires, replaces and releases it; the last scan reads it as
  // terminal.
  lemma LivesAndIsReleased(posix: bool, back: string) returns (w1: World, w2: World, w3: World)
    requires NamesFirst(back)
    ensures var c := RulesOf(TheContext(posix, back));
      && Reaches(c, Start(), w1) && Ends(Start(), w1, "l", First())
      && Reaches(c, w1, w2) && Ends(w1, w2, "l", Second())
      && Reaches(c, w2, w3) && Ends(w2, w3, "l", Third())
      && Inv(c, w1) && Inv(c, w2) && Inv(c, w3)
    ensures Treat(TheContext(posix, back), RepositoryRoot, w3.files, "l", w3.now) == AsTerminal
  {
    hide Reaches, Inv, RulesOf, Treat, Ends, TheContext, Nobody;
    w1 := IsAcquired(posix, back);
    w2 := IsReplaced(posix, back, w1);
    WhatEnds(Start(), w1, "l", First());
    WhatEnds(w1, w2, "l", Second());
    w3 := IsReleased(posix, back, w2);
    WhatEnds(w2, w3, "l", Third());
    ReleasedFileIsTerminal(TheContext(posix, back), w3, "l");
  }

  lemma WhatEnds(w: World, w': World, id: string, doc: Record)
    requires Ends(w, w', id, doc)
    ensures w'.files == w.files[id := Whole(doc)] && w'.now == w.now
  {
  }

  lemma StartIsSound(c: Context)
    ensures Inv(RulesOf(c), Start()) && Nobody(Start())
  {
    hide RulesOf;
    RulesAreSound(c);
    InitialInv(RulesOf(c), Start());
  }

  lemma IsAcquired(posix: bool, back: string) returns (w1: World)
    requires NamesFirst(back)
    ensures var c := RulesOf(TheContext(posix, back));
      Reaches(c, Start(), w1) && Ends(Start(), w1, "l", First()) && w1.archive == map[] && Inv(c, w1) && Nobody(w1)
  {
    hide Reaches, Inv, AcquireValid, PassesScan;
    var c := RulesOf(TheContext(posix, back));
    TheyPass(posix, back);
    StartIsSound(TheContext(posix, back));
    w1 := AcquisitionCompletes(c, Start(), First());
    StaysQuiet(TheContext(posix, back), Start(), w1);
  }

  lemma IsReplaced(posix: bool, back: string, w1: World) returns (w2: World)
    requires NamesFirst(back)
    requires var c := RulesOf(TheContext(posix, back));
      Ends(Start(), w1, "l", First()) && w1.archive == map[] && Inv(c, w1) && Nobody(w1)
    ensures var c := RulesOf(TheContext(posix, back));
      Reaches(c, w1, w2) && Ends(w1, w2, "l", Second()) && Inv(c, w2) && Nobody(w2)
  {
    hide Reaches, Inv, AcquireValid, ReplaceValid, ReleaseShape, ReleaseAuthorised, PassesScan, Conflicts, Nobody,
      ValidLease;
    var c := RulesOf(TheContext(posix, back));
    TheyPass(posix, back);
    TheyAreValid(LexicalHost(posix), Second());
    assert w1.files.Keys - {"l"} == {};
    w2 := ReplaceGoesThrough(c, w1, "l", Second(), 1, First());
    StaysQuiet(TheContext(posix, back), w1, w2);
  }

  lemma IsReleased(posix: bool, back: string, w2: World) returns (w3: World)
    requires NamesFirst(back)
    requires var c := RulesOf(TheContext(posix, back));
      w2.files == map["l" := Whole(Second())] && w2.now == 5 && Inv(c, w2) && Nobody(w2)
    ensures var c := RulesOf(TheContext(posix, back));
      Reaches(c, w2, w3) && Ends(w2, w3, "l", Third()) && Inv(c, w3)
  {
    hide Reaches, Inv, AcquireValid, ReplaceValid, ReleaseShape, ReleaseAuthorised, PassesScan, Conflicts, Nobody,
      ValidLease;
    var c := RulesOf(TheContext(posix, back));
    TheyPass(posix, back);
    w3 := ReleaseGoesThrough(c, w2, Closing(), Second());
    StaysQuiet(TheContext(posix, back), w2, w3);
  }

  lemma StaysQuiet(c: Context, w: World, w': World)
    requires Inv(RulesOf(c), w) && Reaches(RulesOf(c), w, w') && w'.mutex.None?
    ensures Inv(RulesOf(c), w') && Nobody(w')
  {
    hide Reaches, Inv, RulesOf;
    SerialReached(RulesOf(c), w, w');
    FreeMutexNobody(RulesOf(c), w');
  }

  // With the predecessor's own text the replaced lease is accepted by both
  // readers of its lineage, with the alias by neither: replacement compares
  // files, the readers compare texts.
  lemma SpellingDecidesLineage(posix: bool, back: string, native: bool)
      returns (worlds: seq<World>, actions: seq<Action>, w: World)
    requires NamesFirst(back)
    ensures var c := TheContext(posix, back);
      && IsRun(c, worlds, actions) && w == worlds[|worlds| - 1]
      && w.files == map["l" := Whole(Second())] && w.history == map["l" := [First(), Second()]]
      && (LineageOk(c, Readable(w), Second(), "l", native) <==> back == "d")
  {
    hide Next, LineageOk, RulesOf, Inv;
    var c := TheContext(posix, back);
    var w1 := IsAcquired(posix, back);
    w := IsReplaced(posix, back, w1);
    worlds, actions := RunThrough(c, Start(), w1, w);
    assert w.history["l"] == [First(), Second()];
    ReachableLineage(c, worlds, actions, |worlds| - 1, "l", native);
    assert SameSpelling(c.store, [First(), Second()], 1) <==> back == "d";
  }

  lemma RunThrough(c: Context, start: World, middle: World, end: World)
      returns (worlds: seq<World>, actions: seq<Action>)
    requires Initial(start) && Reaches(RulesOf(c), start, middle) && Reaches(RulesOf(c), middle, end)
    ensures IsRun(c, worlds, actions) && worlds[|worlds| - 1] == end
  {
    hide Next, RulesOf;
    ReachJoin(RulesOf(c), start, middle, end);
    worlds, actions :| LeadsTo(RulesOf(c), start, end, worlds, actions);
  }

  // A process that dies between linking the record in and removing its
  // temporary name leaves it so: no release of it, and no replacement, can happen.
  lemma CanBeAbandoned(posix: bool) returns (w: World)
    ensures var c := RulesOf(TheContext(posix, "d"));
      && Reaches(c, Start(), w) && Inv(c, w) && Nobody(w)
      && Progress.Holds(w, "l", First()) && Abandoned(w, "l")
      && ReplaceReady(c, w, "l", Second(), 1, First())
      && !exists w' :: Reaches(c, w, w') && Progress.Holds(w', "l", Second())
  {
    hide Reaches, Inv, AcquireValid, ReplaceValid, ReleaseShape, ReleaseAuthorised, PassesScan, Conflicts, Nobody,
      ValidLease;
    var c := RulesOf(TheContext(posix, "d"));
    TheyPass(posix, "d");
    TheyAreValid(LexicalHost(posix), Second());
    StartIsSound(TheContext(posix, "d"));
    w := AcquisitionCanBeAbandoned(c, Start(), First());
    SerialReached(c, Start(), w);
    ReplacementPossible(c, w, "l", Second(), 1, First());
  }

  // So does one that dies while it archives a replaced record.
  lemma CopyCanBeAbandoned(posix: bool) returns (w: World)
    ensures var c := RulesOf(TheContext(posix, "d"));
      && Reaches(c, Start(), w) && Inv(c, w) && Nobody(w)
      && Progress.Holds(w, "l", First()) && AbandonedCopy(w, ("l", 1))
  {
    hide Reaches, Inv, AcquireValid, ReplaceValid, ReleaseShape, ReleaseAuthorised, PassesScan, Conflicts, Nobody,
      ValidLease;
    var c := RulesOf(TheContext(posix, "d"));
    TheyPass(posix, "d");
    TheyAreValid(LexicalHost(posix), Second());
    var w1 := IsAcquired(posix, "d");
    assert w1.files.Keys - {"l"} == {};
    w := ReplacementCanBeAbandoned(c, w1, "l", Second(), 1, First());
    ReachJoin(c, Start(), w1, w);
    StartIsSound(TheContext(posix, "d"));
    SerialReached(c, Start(), w);
  }

  // ---- A v1 lease ----

  function Legacy(runId: string): Record {
    Record(V1, Some("l"), runId, Active, 1, Some(0), None, None, "me", Some(COORDINATION),
           [Item(REPOSITORY, Some(Read), None, None, None, None)], [], [],
           None, Some("d"), None, None, None, None, None)
  }

  function LegacyContext(posix: bool, runId: string): Context {
    Context(
      Store(map["d" := "/1"],
            map["/1" := Decision(true, true, true, runId, Some(1), true, NoReference, ["lease:acquire"],
                                 Some("l"), Some(1), None, None)],
            map[]),
      LexicalHost(posix))
  }

  predicate OneLetter(runId: string) {
    runId == "r" || runId == "r\n"
  }

  lemma LegacyIsValid(host: Host, runId: string)
    requires OneLetter(runId)
    ensures ValidLease(host, Legacy(runId), false, true)
  {
    hide CanonicalRepoV2, CanonicalRepo, StructuralName, V2Name, SafeId, Chomp;
    var r := Legacy(runId);
    NamesAreSound();
    IdsAreSafe();
    LetterIsLeft(runId);
    assert WriterItems(r.repositories) == [];
    assert Canonicalizer(r)(REPOSITORY) == REPOSITORY && Canonicalizer(r)(COORDINATION) == COORDINATION;
    assert Identities(r) == [REPOSITORY];
  }

  lemma LetterIsLeft(runId: string)
    requires OneLetter(runId)
    ensures Chomp(runId) == "r" && Chomp("r") == "r"
  {
  }

  lemma LegacyIsAcquirable(posix: bool, runId: string)
    requires OneLetter(runId)
    ensures var c := LegacyContext(posix, runId);
      && AcquireValid(c.store, c.host, Legacy(runId))
      && ValidLease(c.host, Legacy(runId), false, true)
      && LegacyClosable(c.host, Legacy(runId), "o")
  {
    hide ValidLease, LexicalHost;
    var c, r := LegacyContext(posix, runId), Legacy(runId);
    LegacyIsValid(c.host, runId);
    assert Descends(c.store, "/1", runId, false, 1);
    assert "lease:acquire" in c.store.decisions["/1"].actions;
    assert Bound(c.store, c.host, r, "/1", "lease:acquire");
  }

  // A v1 lease acquired and released. With a run id that ends in a newline no
  // scan reads it as terminal. Otherwise every scan does, but for a root that is
  // not a repository, where the scan refuses and observation does not.
  lemma LegacyLivesAndIsReleased(posix: bool, runId: string) returns (w1: World, w2: World)
    requires OneLetter(runId)
    ensures var c := LegacyContext(posix, runId);
      && Reaches(RulesOf(c), Start(), w1) && Ends(Start(), w1, "l", Legacy(runId))
      && Reaches(RulesOf(c), w1, w2) && Ends(w1, w2, "l", LegacyReleased(Legacy(runId), 5, "o"))
      && (Treat(c, RepositoryRoot, w2.files, "l", w2.now) == AsTerminal <==> runId == "r")
      && (LegacyUnderBadRoot(NotARepository, w2.files, "l") <==> runId == "r")
      && (runId == "r" ==>
            && Treat(c, NotARepository, w2.files, "l", w2.now) == ScanRefused
            && Observe(c, NotARepository, w2.files, "l", w2.now, w2.now) == TerminalReleased)
  {
    hide Reaches, Inv, AcquireValid, ValidLease, LegacyClosable, PassesScan, Conflicts, Nobody, LegacyValid;
    var c := LegacyContext(posix, runId);
    LegacyIsAcquirable(posix, runId);
    StartIsSound(c);
    w1 := LegacyIsAcquired(posix, runId);
    w2 := LegacyIsReleased(posix, runId, w1);
    LegacyReleaseIsTerminal(c.host, Legacy(runId), false, true, 5, "o");
    ReleasedFileIsTerminal(c, w2, "l");
    ObservationAgreesWithScan(c, NotARepository, w2.files, "l", w2.now, w2.now);
  }

  lemma LegacyIsAcquired(posix: bool, runId: string) returns (w1: World)
    requires OneLetter(runId)
    ensures var c := RulesOf(LegacyContext(posix, runId));
      Reaches(c, Start(), w1) && Ends(Start(), w1, "l", Legacy(runId)) && Inv(c, w1) && Nobody(w1)
  {
    hide Reaches, Inv, AcquireValid, ValidLease, PassesScan, LegacyClosable;
    var c := LegacyContext(posix, runId);
    LegacyIsAcquirable(posix, runId);
    StartIsSound(c);
    w1 := AcquisitionCompletes(RulesOf(c), Start(), Legacy(runId));
    StaysQuiet(c, Start(), w1);
  }

  lemma LegacyIsReleased(posix: bool, runId: string, w1: World) returns (w2: World)
    requires OneLetter(runId)
    requires var c := RulesOf(LegacyContext(posix, runId));
      Ends(Start(), w1, "l", Legacy(runId)) && Inv(c, w1) && Nobody(w1)
    ensures var c := RulesOf(LegacyContext(posix, runId));
      Reaches(c, w1, w2) && Ends(w1, w2, "l", LegacyReleased(Legacy(runId), 5, "o")) && Inv(c, w2)
  {
    hide Reaches, Inv, AcquireValid, ValidLease, PassesScan, LegacyClosable, Nobody;
    var c := LegacyContext(posix, runId);
    LegacyIsAcquirable(posix, runId);
    w2 := ReleaseGoesThrough(RulesOf(c), w1, Release("l", 1, None, "o"), Legacy(runId));
    StaysQuiet(c, w1, w2);
  }

  // ---- Leases no decision can cover ----

  const SUFFIXED := "o/g.git"
  const BRANCH := "refs/heads/m\n"

  function WithInfrastructure(): Record {
    First().(infrastructure := [SUFFIXED])
  }

  function WithBranch(): Record {
    First().(repositories := [Item(REPOSITORY, Some(Read), None, None, Some(BRANCH), None)])
  }

  lemma NoDecisionCovers(posix: bool, r: Record)
    requires r == WithInfrastructure() || r == WithBranch()
    ensures ValidLease(LexicalHost(posix), r, false, true)
    ensures !exists scope :: Covers(LexicalHost(posix), r, scope)
  {
    hide LexicalHost, Lexical, ValidLease, ScopeFixpoints.Entry, Covers;
    var host := LexicalHost(posix);
    LexicalHostIsLexical(posix);
    UncoveredIsValid(host, r);
    CoverExistsIff(host, r, false);
    if r == WithInfrastructure() {
      ShortOwnerName("o/g");
      GitSuffixIsNoEntry(host, "o/g");
      SuffixedIsClaimed(r);
    } else {
      assert r.repositories[0] in r.repositories && EndsInNewline(BRANCH);
    }
  }

  lemma SuffixedIsClaimed(r: Record)
    requires r.infrastructure == [SUFFIXED]
    ensures FromInfrastructure(r, "o/g" + ".git")
  {
    assert Strip(SUFFIXED) == SUFFIXED;
    assert Fold(SUFFIXED) == SUFFIXED;
    assert r.infrastructure[0] == SUFFIXED;
  }

  lemma UncoveredIsValid(host: Host, r: Record)
    requires r == WithInfrastructure() || r == WithBranch()
    ensures ValidLease(host, r, false, true)
  {
    hide ValidLease, SchemaValid, Strip, BranchRef, Chomp;
    assert WriterItems(r.repositories) == [];
    assert Strip(SUFFIXED) == SUFFIXED by { SuffixedIsStripped(); }
    assert BranchRef(Chomp(BRANCH)) by { BranchIsOne(); }
    SchemaHolds(r);
    ReadsOneIsValid(host, r);
  }

  lemma SuffixedIsStripped()
    ensures Strip(SUFFIXED) == SUFFIXED
  {
  }

  lemma BranchIsOne()
    ensures BranchRef(Chomp(BRANCH))
  {
    assert Chomp(BRANCH) == "refs/heads/m";
  }
}
