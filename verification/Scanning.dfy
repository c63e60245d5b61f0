// The overlap scan of a lock root, as the code performs it.
module Scanning {
  import opened Commons
  import opened Records
  import opened Lifecycle
  import opened Binding
  import opened Overlap
  import opened LockRoot

  // One ordinary or unusual file, read as the scan reads it.
  method ReadEntry(c: Context, choice: RootChoice, files: Files, id: string, now: int) returns (entry: Scanned)
    requires id in files && choice != NotARepository
    ensures entry == Scan(c, choice, files, id, now)
  {
    hide TerminalValid, LegacyTerminal;
    var content := files[id].content;
    if !OrdinaryEntry(files, id) {
      return Scanned(if files[id].regular && content.Json? then content.doc else OPAQUE, id);
    }
    if content.Torn? { return Scanned(OPAQUE, id); }
    var doc := content.doc;
    if doc.state == Released && doc.schema == V1 && doc.leaseId == Some(id) {
      if LegacyTerminal(doc) { return Scanned(TerminalMarker(id), id); }
    }
    if doc.state == Released && doc.schema == V2 && doc.leaseId == Some(id) && choice == RepositoryRoot {
      var terminal := CheckTerminal(c.store, c.host, doc, now);
      if terminal { return Scanned(TerminalMarker(id), id); }
    }
    return Scanned(doc, id);
  }

  // Every lease file but the excluded one. A root that is no repository, and an
  // excluded file that is no ordinary one, end the scan at once.
  method ActiveLeases(c: Context, choice: RootChoice, files: Files, excluded: Option<string>, now: int)
    returns (refused: bool, found: seq<Scanned>)
    ensures refused <==> (
      || choice == NotARepository
      || (excluded.Some? && excluded.value in files && !OrdinaryEntry(files, excluded.value)))
    ensures !refused ==> forall s :: s in found <==>
      exists id :: id in files && Some(id) != excluded && s == Scan(c, choice, files, id, now)
  {
    found := [];
    refused := choice == NotARepository
      || (excluded.Some? && excluded.value in files && !OrdinaryEntry(files, excluded.value));
    if refused { return; }
    var todo := files.Keys;
    while todo != {}
      invariant todo <= files.Keys
      invariant forall s :: s in found <==>
        exists id :: id in files.Keys - todo && Some(id) != excluded && s == Scan(c, choice, files, id, now)
    {
      var id :| id in todo;
      if Some(id) != excluded {
        var entry := ReadEntry(c, choice, files, id, now);
        found := found + [entry];
      }
      todo := todo - {id};
    }
  }

  // The scan admits a candidate exactly when every file it is compared with
  // lets it pass: the verdict the admission protocol is built on.
  method FindOverlapsIn(c: Context, files: Files, candidate: Record, excluded: Option<string>, now: int)
    returns (refused: bool, free: bool)
    ensures refused <==> excluded.Some? && excluded.value in files && !OrdinaryEntry(files, excluded.value)
    ensures !refused ==> (free <==> forall id <- files :: Some(id) != excluded ==>
                                      PassesScan(c, candidate, files, id, now))
  {
    free := false;
    var found;
    refused, found := ActiveLeases(c, RepositoryRoot, files, excluded, now);
    if refused { return; }
    var findings;
    free, findings := Admits(c.host, candidate, found);
    ScannedOneByOne(c, files, candidate, excluded, now, found);
  }

  lemma ScannedOneByOne(c: Context, files: Files, candidate: Record, excluded: Option<string>, now: int, found: seq<Scanned>)
    requires forall s :: s in found <==>
      exists id :: id in files && Some(id) != excluded && s == Scan(c, RepositoryRoot, files, id, now)
    ensures (forall k :: 0 <= k < |found| ==>
               !Conflicts(c.host, candidate, found[k].doc) && !SameLeaseId(candidate, found[k]))
       <==> (forall id <- files :: Some(id) != excluded ==> PassesScan(c, candidate, files, id, now))
  {
    hide Conflicts, SameLeaseId, Scan;
    if forall k :: 0 <= k < |found| ==>
         !Conflicts(c.host, candidate, found[k].doc) && !SameLeaseId(candidate, found[k]) {
      forall id <- files | Some(id) != excluded ensures PassesScan(c, candidate, files, id, now) {
        var s := Scan(c, RepositoryRoot, files, id, now);
        assert s in found;
        var k :| 0 <= k < |found| && found[k] == s;
      }
    }
    if forall id <- files :: Some(id) != excluded ==> PassesScan(c, candidate, files, id, now) {
      forall k | 0 <= k < |found|
        ensures !Conflicts(c.host, candidate, found[k].doc) && !SameLeaseId(candidate, found[k])
      {
        assert found[k] in found;
        var id :| id in files && Some(id) != excluded && found[k] == Scan(c, RepositoryRoot, files, id, now);
        assert PassesScan(c, candidate, files, id, now);
      }
    }
  }
}
