// The lock root: lease files, how the overlap scan reads them, and observation.
module LockRoot {
  import opened Commons
  import opened Text
  import opened Records
  import opened Lifecycle
  import opened Overlap

  datatype Content = Torn | Json(doc: Record)

  // A directory entry. An extra link remains when a process dies between the
  // link that publishes a file and the removal of its temporary name.
  datatype Entry = Entry(regular: bool, links: nat, content: Content)

  // Lease files by the id their exact-suffix file name carries.
  type Files = map<string, Entry>

  datatype Context = Context(store: Store, host: Host)

  datatype RootChoice = NoRoot | NotARepository | RepositoryRoot

  // One spelling, an ordinary file, a single link.
  predicate OrdinaryEntry(files: Files, id: string) {
    && id in files && (forall other <- files :: Fold(other) == Fold(id) ==> other == id)
    && files[id].regular && files[id].links == 1
  }

  const OPAQUE := Record(UnknownSchema, None, "", OtherState, 0, None, None, None, "", None, [], [], [],
                         None, None, None, None, None, None, None)

  function TerminalMarker(id: string): Record {
    OPAQUE.(leaseId := Some(id))
  }

  // How the scan treats one file. It refuses altogether when the repository
  // root it is given is not one.
  datatype Treatment = ScanRefused | AsTerminal | AsRecord(doc: Record)

  ghost function Treat(c: Context, choice: RootChoice, files: Files, id: string, now: int): Treatment
    requires id in files
  {
    var entry := files[id];
    if choice == NotARepository then ScanRefused
    else if !OrdinaryEntry(files, id) then
      AsRecord(if entry.regular && entry.content.Json? then entry.content.doc else OPAQUE)
    else if entry.content.Torn? then AsRecord(OPAQUE)
    else
      var doc := entry.content.doc;
      if doc.state == Released && doc.schema == V1 && doc.leaseId == Some(id) && LegacyTerminal(doc)
      then AsTerminal
      else if doc.state == Released && doc.schema == V2 && doc.leaseId == Some(id)
              && choice == RepositoryRoot && TerminalValid(c.store, c.host, doc, now)
      then AsTerminal
      else AsRecord(doc)
  }

  ghost function Scan(c: Context, choice: RootChoice, files: Files, id: string, now: int): Scanned
    requires id in files && choice != NotARepository
  {
    match Treat(c, choice, files, id, now)
    case AsTerminal => Scanned(TerminalMarker(id), id)
    case AsRecord(doc) => Scanned(doc, id)
  }

  // One file's verdict on a candidate.
  ghost predicate PassesScan(c: Context, candidate: Record, files: Files, id: string, now: int) {
    && id in files
    && var other := Scan(c, RepositoryRoot, files, id, now);
    !Conflicts(c.host, candidate, other.doc) && !SameLeaseId(candidate, other)
  }

  // ---- Observation ----

  // IdRejected: not an identifier to observe at all.
  datatype Ownership = IdRejected | UnknownFailClosed | TerminalReleased | ActiveLegacy | ActiveNow | StaleActive

  datatype Doubt = WrongId | NoRepositoryRoot | InvalidLease | InvalidTerminal | InvalidLegacy | Unsupported

  ghost function Doubts(c: Context, choice: RootChoice, doc: Record, id: string, now: int): seq<Doubt> {
    (if doc.leaseId == Some(id) then [] else [WrongId])
    + match doc.schema
      case V2 =>
        (if choice == RepositoryRoot then [] else [NoRepositoryRoot])
        + (if choice != RepositoryRoot then
             if !V2Lifecycle(doc) then [InvalidLease]
             else if doc.state == Released then [InvalidTerminal] else []
           else
             if !ValidLease(c.host, doc, true, false) then [InvalidLease]
             else if doc.state == Released && !TerminalRelease(c.store, c.host, doc, now) then [InvalidTerminal]
             else [])
      case V1 =>
        if !LegacyValid(doc) then [InvalidLegacy]
        else if doc.state == Released && !LegacyTerminal(doc) then [InvalidTerminal]
        else []
      case UnknownSchema => [Unsupported]
  }

  // `observed` is the instant ownership is judged at, `now` the clock.
  ghost function Observe(c: Context, choice: RootChoice, files: Files, id: string, observed: int, now: int): Ownership
    requires id in files
  {
    if !SafeId(id) then IdRejected
    else if !OrdinaryEntry(files, id) || files[id].content.Torn? then UnknownFailClosed
    else
      var doc := files[id].content.doc;
      if Doubts(c, choice, doc, id, now) != [] then UnknownFailClosed
      else if doc.state == Released then TerminalReleased
      else if doc.state != Active then UnknownFailClosed
      else if doc.schema == V1 then ActiveLegacy
      else if doc.expires.Some? && observed <= doc.expires.value then ActiveNow
      else StaleActive
  }

  // The one disagreement: a terminal v1 record under a repository root that is
  // not one. Observation needs no root for v1, the scan resolves it first.
  predicate LegacyUnderBadRoot(choice: RootChoice, files: Files, id: string)
    requires id in files
  {
    && choice == NotARepository && OrdinaryEntry(files, id) && files[id].content.Json?
    && var doc := files[id].content.doc;
    && doc.schema == V1 && doc.leaseId == Some(id) && LegacyTerminal(doc)
  }

  // Otherwise observation reports an id terminal exactly when the scan keeps
  // only its id.
  lemma ObservationAgreesWithScan(c: Context, choice: RootChoice, files: Files, id: string, observed: int, now: int)
    requires id in files
    ensures (Observe(c, choice, files, id, observed, now) == TerminalReleased
             <==> Treat(c, choice, files, id, now) == AsTerminal)
       <==> !LegacyUnderBadRoot(choice, files, id)
    ensures Treat(c, choice, files, id, now) == AsTerminal
        ==> Observe(c, choice, files, id, observed, now) == TerminalReleased
  {
    hide ValidLease, TerminalRelease, LegacyValid;
    if OrdinaryEntry(files, id) && files[id].content.Json? && files[id].content.doc.state == Released {
      DoubtsOfReleased(c, choice, files[id].content.doc, id, now);
      if files[id].content.doc.leaseId == Some(id) { TerminalIdIsSafe(c, files[id].content.doc, id, now); }
    }
  }

  lemma TerminalIdIsSafe(c: Context, doc: Record, id: string, now: int)
    requires doc.leaseId == Some(id)
    ensures doc.schema == V1 && LegacyTerminal(doc) ==> SafeId(id)
    ensures doc.schema == V2 && TerminalRelease(c.store, c.host, doc, now) ==> SafeId(id)
  {
    hide ScopeBinds, SafeId;
    if doc.schema == V2 && TerminalRelease(c.store, c.host, doc, now) {
      var release, active :| TerminalEvidence(c.store, c.host, doc, release, active);
      EvidenceBinds(c.store, c.host, doc, release, active);
      assert Binds(c.store, c.host, doc, release, ReleaseAction(doc.releaseAuthority));
    }
  }

  lemma DoubtsOfReleased(c: Context, choice: RootChoice, doc: Record, id: string, now: int)
    requires doc.state == Released
    ensures Doubts(c, choice, doc, id, now) == []
       <==> doc.leaseId == Some(id)
            && if doc.schema == V1 then LegacyTerminal(doc)
               else doc.schema == V2 && choice == RepositoryRoot && TerminalValid(c.store, c.host, doc, now)
  {
    hide ValidLease, TerminalRelease;
  }

  // The scan compares ids through the file name, and reads an ACTIVE record whole.
  lemma ScanShape(c: Context, files: Files, id: string, now: int)
    requires id in files
    ensures Scan(c, RepositoryRoot, files, id, now).inferredId == id
    ensures files[id].regular && files[id].content.Json? && files[id].content.doc.state == Active ==>
      Scan(c, RepositoryRoot, files, id, now).doc == files[id].content.doc
  {
  }
}
