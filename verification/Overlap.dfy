// Shared-read/exclusive-write reservations and the scan for conflicts.
module Overlap {
  import opened Commons
  import opened Records
  import opened Text
  import opened Paths
  import opened Repositories

  datatype Kind = Repository | Coordination | Branch | Infrastructure | Path

  // ---- What a record claims, item by item, before any merging ----

  predicate Shared(r: Record) { r.schema == V2 }

  function ModeOf(r: Record, item: Item): Mode
    requires item.Item?
  {
    if Shared(r) && item.mode.Some? then item.mode.value else Write
  }

  function ItemIdentities(r: Record, item: Item): set<string>
    requires item.Item?
  {
    OverlapIdentities(item.repository, Shared(r))
  }

  predicate Blank(s: string) { Strip(s) == "" }

  function PathIdentities(host: Host, r: Record, spelling: string): set<string> {
    if Blank(spelling) then {} else host.pathIdentities(spelling, r.schema != V1)
  }

  function OptionalPaths(host: Host, r: Record, spelling: Option<string>): set<string> {
    if spelling.None? then {} else PathIdentities(host, r, spelling.value)
  }

  function ItemPaths(host: Host, r: Record, item: Item): set<string>
    requires item.Item?
  {
    OptionalPaths(host, r, item.canonicalPath) + OptionalPaths(host, r, item.worktreeRoot)
  }

  function BranchIdentity(repository: string, branch: string): string {
    repository + ":" + Fold(branch)
  }

  function ItemBranches(r: Record, item: Item): set<string>
    requires item.Item?
  {
    if item.branchRef.None? || Blank(item.branchRef.value) then {}
    else set id <- ItemIdentities(r, item) :: BranchIdentity(id, item.branchRef.value)
  }

  function ItemClaims(host: Host, r: Record, item: Item, kind: Kind): set<string> {
    if item.Malformed? then {}
    else match kind
      case Repository => ItemIdentities(r, item)
      case Branch => ItemBranches(r, item)
      case Path => ItemPaths(host, r, item)
      case _ => {}
  }

  ghost predicate FromItem(host: Host, r: Record, kind: Kind, id: string, mode: Mode) {
    exists i :: 0 <= i < |r.repositories| && ItemClaim(host, r, r.repositories[i], kind, id, mode)
  }

  ghost predicate ItemClaim(host: Host, r: Record, item: Item, kind: Kind, id: string, mode: Mode) {
    item.Item? && id in ItemClaims(host, r, item, kind) && mode == ModeOf(r, item)
  }

  ghost predicate FromLocalScope(host: Host, r: Record, id: string) {
    exists i :: 0 <= i < |r.localScopes| && id in PathIdentities(host, r, r.localScopes[i])
  }

  ghost predicate FromInfrastructure(r: Record, id: string) {
    exists i :: 0 <= i < |r.infrastructure|
             && !Blank(r.infrastructure[i]) && id == Fold(Strip(r.infrastructure[i]))
  }

  function CoordinationIdentities(r: Record): set<string> {
    if r.coordination.None? || Blank(r.coordination.value) then {}
    else OverlapIdentities(r.coordination.value, Shared(r))
  }

  // The coordination repository alone is read in v2 and written otherwise.
  ghost predicate Claims(host: Host, r: Record, kind: Kind, id: string, mode: Mode) {
    match kind
    case Repository => FromItem(host, r, Repository, id, mode)
    case Branch => FromItem(host, r, Branch, id, mode)
    case Path => FromItem(host, r, Path, id, mode) || (mode == Write && FromLocalScope(host, r, id))
    case Infrastructure => mode == Write && FromInfrastructure(r, id)
    case Coordination =>
      id in CoordinationIdentities(r) && mode == if Shared(r) then Read else Write
  }

  // Product and coordination repositories are one name space.
  predicate Comparable(a: Kind, b: Kind) {
    a == b || (a in {Repository, Coordination} && b in {Repository, Coordination})
  }

  predicate SameResource(kind: Kind, left: string, right: string) {
    if kind == Path then PathsOverlap(left, right) else left == right
  }

  // Two claims on one resource, at least one of them a WRITE.
  ghost predicate Clash(host: Host, a: Record, b: Record,
                        ka: Kind, kb: Kind, left: string, right: string, ma: Mode, mb: Mode) {
    && Comparable(ka, kb) && SameResource(ka, left, right)
    && (ma == Write || mb == Write)
    && Claims(host, a, ka, left, ma) && Claims(host, b, kb, right, mb)
  }

  ghost predicate Conflicts(host: Host, a: Record, b: Record) {
    exists ka, kb, left, right, ma, mb :: Clash(host, a, b, ka, kb, left, right, ma, mb)
  }

  lemma ConflictsSymmetric(host: Host, a: Record, b: Record)
    ensures Conflicts(host, a, b) == Conflicts(host, b, a)
  {
    hide Conflicts;
    if Conflicts(host, a, b) { ConflictSwaps(host, a, b); }
    if Conflicts(host, b, a) { ConflictSwaps(host, b, a); }
  }

  lemma ConflictSwaps(host: Host, a: Record, b: Record)
    requires Conflicts(host, a, b)
    ensures Conflicts(host, b, a)
  {
    hide Claims;
    var ka, kb, left, right, ma, mb :| Clash(host, a, b, ka, kb, left, right, ma, mb);
    assert Clash(host, b, a, kb, ka, right, left, mb, ma);
  }

  // b claims at least what a claims.
  ghost predicate ClaimsMore(host: Host, a: Record, b: Record) {
    forall kind, id, mode :: Claims(host, a, kind, id, mode) ==> Claims(host, b, kind, id, mode)
  }

  // Adding a claim never removes a conflict.
  lemma ConflictsMonotone(host: Host, a: Record, a': Record, b: Record)
    requires ClaimsMore(host, a, a')
    requires Conflicts(host, a, b)
    ensures Conflicts(host, a', b)
  {
    hide Claims;
    var ka, kb, left, right, ma, mb :| Clash(host, a, b, ka, kb, left, right, ma, mb);
    assert Clash(host, a', b, ka, kb, left, right, ma, mb);
  }

  // r with its lists reordered, repeated or extended.
  predicate ListsWithin(r: Record, s: Record) {
    && r.schema == s.schema && r.coordination == s.coordination
    && (forall item <- r.repositories :: item in s.repositories)
    && (forall scope <- r.localScopes :: scope in s.localScopes)
    && (forall scope <- r.infrastructure :: scope in s.infrastructure)
  }

  lemma ListsWithinClaimMore(host: Host, r: Record, s: Record)
    requires ListsWithin(r, s)
    ensures ClaimsMore(host, r, s)
  {
    forall kind, id, mode | Claims(host, r, kind, id, mode)
      ensures Claims(host, s, kind, id, mode)
    {
      if FromItem(host, r, kind, id, mode) {
        var i :| 0 <= i < |r.repositories| && ItemClaim(host, r, r.repositories[i], kind, id, mode);
        assert r.repositories[i] in s.repositories;
        var j :| 0 <= j < |s.repositories| && s.repositories[j] == r.repositories[i];
        assert ItemClaim(host, s, s.repositories[j], kind, id, mode);
      }
      if kind == Path && FromLocalScope(host, r, id) {
        var i :| 0 <= i < |r.localScopes| && id in PathIdentities(host, r, r.localScopes[i]);
        assert r.localScopes[i] in s.localScopes;
        var j :| 0 <= j < |s.localScopes| && s.localScopes[j] == r.localScopes[i];
        assert id in PathIdentities(host, s, s.localScopes[j]);
      }
      if kind == Infrastructure {
        var i :| 0 <= i < |r.infrastructure|
              && !Blank(r.infrastructure[i]) && id == Fold(Strip(r.infrastructure[i]));
        assert r.infrastructure[i] in s.infrastructure;
        var j :| 0 <= j < |s.infrastructure| && s.infrastructure[j] == r.infrastructure[i];
      }
    }
  }

  // The order and multiplicity of list items never change a verdict.
  lemma OrderIndependent(host: Host, r: Record, s: Record, other: Record)
    requires ListsWithin(r, s) && ListsWithin(s, r)
    ensures Conflicts(host, r, other) == Conflicts(host, s, other)
  {
    ListsWithinClaimMore(host, r, s);
    ListsWithinClaimMore(host, s, r);
    if Conflicts(host, r, other) { ConflictsMonotone(host, r, s, other); }
    if Conflicts(host, s, other) { ConflictsMonotone(host, s, r, other); }
  }

  // ---- Merged access tables ----

  datatype Reservations = Reservations(
    repositories: map<string, Mode>,
    paths: map<string, Mode>,
    branches: map<string, Mode>,
    infrastructure: map<string, Mode>,
    coordination: map<string, Mode>)

  // A WRITE already present, or arriving, wins.
  function MergeAccess(target: map<string, Mode>, value: string, mode: Mode): map<string, Mode> {
    if (value in target && target[value] == Write) || mode == Write
    then target[value := Write] else target[value := Read]
  }

  method MergeAll(target: map<string, Mode>, values: set<string>, mode: Mode)
    returns (merged: map<string, Mode>)
    ensures forall id :: id in merged <==> id in target || id in values
    ensures forall id :: id in merged ==>
      (merged[id] == Write <==> (id in target && target[id] == Write) || (id in values && mode == Write))
  {
    merged := target;
    var pending := values;
    while pending != {}
      invariant pending <= values
      invariant forall id :: id in merged <==> id in target || id in values - pending
      invariant forall id :: id in merged ==>
        (merged[id] == Write <==> ((id in target && target[id] == Write)
                                || (id in values - pending && mode == Write)))
    {
      var value :| value in pending;
      merged := MergeAccess(merged, value, mode);
      pending := pending - {value};
    }
  }

  // id is listed exactly when held, and as WRITE exactly when some claim on it is a WRITE.
  predicate Agrees(table: map<string, Mode>, id: string, read: bool, written: bool) {
    && (id in table <==> read || written)
    && (id in table ==> (table[id] == Write <==> written))
  }

  ghost predicate Tabulates(host: Host, r: Record, kind: Kind, table: map<string, Mode>) {
    forall id :: Agrees(table, id, Claims(host, r, kind, id, Read), Claims(host, r, kind, id, Write))
  }

  ghost predicate Summarises(host: Host, r: Record, s: Reservations) {
    && Tabulates(host, r, Repository, s.repositories)
    && Tabulates(host, r, Path, s.paths)
    && Tabulates(host, r, Branch, s.branches)
    && Tabulates(host, r, Infrastructure, s.infrastructure)
    && s.coordination.Keys == CoordinationIdentities(r)
    && forall id :: id in s.coordination ==>
         (s.coordination[id] == Write <==> !Shared(r) || Claims(host, r, Repository, id, Write))
  }

  // Claims of one kind made by the first n repository items.
  ghost predicate FromFirst(host: Host, r: Record, n: nat, kind: Kind, id: string, mode: Mode)
    requires n <= |r.repositories|
  {
    exists i :: 0 <= i < n && ItemClaim(host, r, r.repositories[i], kind, id, mode)
  }

  ghost predicate TabulatesFirst(host: Host, r: Record, n: nat, kind: Kind, table: map<string, Mode>)
    requires n <= |r.repositories|
  {
    forall id :: Agrees(table, id, FromFirst(host, r, n, kind, id, Read), FromFirst(host, r, n, kind, id, Write))
  }

  lemma FromFirstStep(host: Host, r: Record, n: nat, kind: Kind, id: string, mode: Mode)
    requires n < |r.repositories|
    ensures FromFirst(host, r, n + 1, kind, id, mode)
       <==> FromFirst(host, r, n, kind, id, mode)
            || ItemClaim(host, r, r.repositories[n], kind, id, mode)
  {
  }

  lemma MergeTabulates(host: Host, r: Record, n: nat, kind: Kind,
                       before: map<string, Mode>, after: map<string, Mode>)
    requires n < |r.repositories| && TabulatesFirst(host, r, n, kind, before)
    requires forall id :: Agrees(after, id,
      (id in before && before[id] == Read) || ItemClaim(host, r, r.repositories[n], kind, id, Read),
      (id in before && before[id] == Write) || ItemClaim(host, r, r.repositories[n], kind, id, Write))
    ensures TabulatesFirst(host, r, n + 1, kind, after)
  {
    var next := n + 1;
    forall id
      ensures Agrees(after, id, FromFirst(host, r, next, kind, id, Read), FromFirst(host, r, next, kind, id, Write))
    {
      FromFirstStep(host, r, n, kind, id, Read);
      FromFirstStep(host, r, n, kind, id, Write);
      assert Agrees(before, id, FromFirst(host, r, n, kind, id, Read), FromFirst(host, r, n, kind, id, Write));
    }
  }

  // One pass over the repository items for one kind of resource.
  method ItemTable(host: Host, r: Record, kind: Kind) returns (table: map<string, Mode>)
    ensures TabulatesFirst(host, r, |r.repositories|, kind, table)
  {
    table := map[];
    for n := 0 to |r.repositories|
      invariant TabulatesFirst(host, r, n, kind, table)
    {
      var item := r.repositories[n];
      ghost var before := table;
      if item.Item? {
        table := MergeAll(table, ItemClaims(host, r, item, kind), ModeOf(r, item));
      }
      MergeTabulates(host, r, n, kind, before, table);
    }
  }

  ghost predicate ScopeAmong(host: Host, r: Record, n: nat, id: string)
    requires n <= |r.localScopes|
  {
    exists i :: 0 <= i < n && id in PathIdentities(host, r, r.localScopes[i])
  }

  // Local scopes are always exclusive.
  method AddLocalScopes(host: Host, r: Record, items: map<string, Mode>) returns (table: map<string, Mode>)
    ensures forall id :: Agrees(table, id, id in items && items[id] == Read,
                                (id in items && items[id] == Write) || FromLocalScope(host, r, id))
  {
    table := items;
    for n := 0 to |r.localScopes|
      invariant forall id :: Agrees(table, id, id in items && items[id] == Read,
                                    (id in items && items[id] == Write) || ScopeAmong(host, r, n, id))
    {
      var next := MergeAll(table, PathIdentities(host, r, r.localScopes[n]), Write);
      forall id
        ensures Agrees(next, id, id in items && items[id] == Read,
                       (id in items && items[id] == Write) || ScopeAmong(host, r, n + 1, id))
      {
        assert Agrees(table, id, id in items && items[id] == Read,
                      (id in items && items[id] == Write) || ScopeAmong(host, r, n, id));
        assert ScopeAmong(host, r, n + 1, id)
          <==> (ScopeAmong(host, r, n, id) || id in PathIdentities(host, r, r.localScopes[n]));
      }
      table := next;
    }
    assert forall id :: ScopeAmong(host, r, |r.localScopes|, id) <==> FromLocalScope(host, r, id);
  }

  method InfrastructureTable(r: Record) returns (table: map<string, Mode>)
    ensures forall id :: id in table <==> FromInfrastructure(r, id)
    ensures forall id :: id in table ==> table[id] == Write
  {
    table := map[];
    for n := 0 to |r.infrastructure|
      invariant forall id :: id in table <==>
        exists i :: 0 <= i < n && !Blank(r.infrastructure[i]) && id == Fold(Strip(r.infrastructure[i]))
      invariant forall id :: id in table ==> table[id] == Write
    {
      if !Blank(r.infrastructure[n]) {
        table := table[Fold(Strip(r.infrastructure[n])) := Write];
      }
    }
  }

  lemma FirstIsAll(host: Host, r: Record, kind: Kind, table: map<string, Mode>, id: string)
    requires TabulatesFirst(host, r, |r.repositories|, kind, table)
    ensures Agrees(table, id, FromItem(host, r, kind, id, Read), FromItem(host, r, kind, id, Write))
  {
    assert Agrees(table, id, FromFirst(host, r, |r.repositories|, kind, id, Read),
                  FromFirst(host, r, |r.repositories|, kind, id, Write));
  }

  method Sets(host: Host, r: Record) returns (s: Reservations)
    ensures Summarises(host, r, s)
  {
    var repositories := ItemTable(host, r, Repository);
    var branches := ItemTable(host, r, Branch);
    var items := ItemTable(host, r, Path);
    var paths := AddLocalScopes(host, r, items);
    var infrastructure := InfrastructureTable(r);
    var coordination := map id <- CoordinationIdentities(r) ::
      if !Shared(r) then Write else if id in repositories then repositories[id] else Read;
    forall id
      ensures Agrees(repositories, id, Claims(host, r, Repository, id, Read), Claims(host, r, Repository, id, Write))
      ensures Agrees(branches, id, Claims(host, r, Branch, id, Read), Claims(host, r, Branch, id, Write))
      ensures Agrees(paths, id, Claims(host, r, Path, id, Read), Claims(host, r, Path, id, Write))
    {
      FirstIsAll(host, r, Repository, repositories, id);
      FirstIsAll(host, r, Branch, branches, id);
      FirstIsAll(host, r, Path, items, id);
    }
    s := Reservations(repositories, paths, branches, infrastructure, coordination);
  }

  // ---- The scan ----

  datatype Category = LeaseId | OnRepository | OnCoordination | OnBranch | OnInfrastructure | OnPath

  datatype Finding = Finding(leaseId: string, category: Category, left: string, right: string)

  // One record of the lock root as the scan sees it, with the id its file name carries.
  datatype Scanned = Scanned(doc: Record, inferredId: string)

  ghost predicate Holds(host: Host, r: Record, kind: Kind, id: string) {
    Claims(host, r, kind, id, Read) || Claims(host, r, kind, id, Write)
  }

  ghost predicate HoldsRepository(host: Host, r: Record, id: string) {
    Holds(host, r, Repository, id) || Holds(host, r, Coordination, id)
  }

  ghost predicate WritesRepository(host: Host, r: Record, id: string) {
    Claims(host, r, Repository, id, Write) || Claims(host, r, Coordination, id, Write)
  }

  // The finding a pair of records must produce, stated on raw claims.
  ghost predicate Warranted(host: Host, a: Record, b: Record, category: Category, left: string, right: string) {
    match category
    case LeaseId => false
    case OnRepository | OnCoordination =>
      && left == right
      && HoldsRepository(host, a, left) && HoldsRepository(host, b, left)
      && (WritesRepository(host, a, left) || WritesRepository(host, b, left))
      && (category == OnCoordination <==>
            left in CoordinationIdentities(a) || left in CoordinationIdentities(b))
    case OnBranch => left == right && Exclusive(host, a, b, Branch, left, right)
    case OnInfrastructure => left == right && Exclusive(host, a, b, Infrastructure, left, right)
    case OnPath => PathsOverlap(left, right) && Exclusive(host, a, b, Path, left, right)
  }

  ghost predicate Exclusive(host: Host, a: Record, b: Record, kind: Kind, left: string, right: string) {
    && Holds(host, a, kind, left) && Holds(host, b, kind, right)
    && (Claims(host, a, kind, left, Write) || Claims(host, b, kind, right, Write))
  }

  predicate SameLeaseId(a: Record, other: Scanned) {
    a.leaseId.Some?
    && (Fold(a.leaseId.value) == Fold(other.inferredId)
        || (SafeDeclaredId(other.doc).Some? && Fold(a.leaseId.value) == Fold(SafeDeclaredId(other.doc).value)))
  }

  predicate IsIdChar(c: char) {
    'A' <= c <= 'Z' || 'a' <= c <= 'z' || '0' <= c <= '9'
  }

  predicate SafeId(s: string) {
    1 <= |s| <= 128 && IsIdChar(s[0])
    && forall i :: 1 <= i < |s| ==> IsIdChar(s[i]) || s[i] in {'.', '_', '-'}
  }

  function SafeDeclaredId(r: Record): Option<string> {
    if r.leaseId.Some? && SafeId(r.leaseId.value) then r.leaseId else None
  }

  function ReportedId(other: Scanned): string {
    if SafeDeclaredId(other.doc).Some? && SafeDeclaredId(other.doc).value != ""
    then SafeDeclaredId(other.doc).value else other.inferredId
  }

  ghost predicate Expected(host: Host, candidate: Record, other: Scanned, f: Finding) {
    && f.leaseId == ReportedId(other)
    && if f.category == LeaseId
       then SameLeaseId(candidate, other) && f.left == f.right == candidate.leaseId.value
       else Warranted(host, candidate, other.doc, f.category, f.left, f.right)
  }

  // The records of the scan, one after another.
  method FindOverlaps(host: Host, candidate: Record, scanned: seq<Scanned>) returns (found: seq<Finding>)
    ensures forall f :: f in found <==> exists k :: 0 <= k < |scanned| && Expected(host, candidate, scanned[k], f)
  {
    hide Expected, Summarises;
    found := [];
    var own := Sets(host, candidate);
    for n := 0 to |scanned|
      invariant forall f :: f in found <==> exists k :: 0 <= k < n && Expected(host, candidate, scanned[k], f)
    {
      var more := Compare(host, candidate, own, scanned[n]);
      ghost var before := found;
      found := found + more;
      assert forall f :: f in found <==> f in before || f in more;
    }
  }

  method Compare(host: Host, candidate: Record, own: Reservations, other: Scanned) returns (found: seq<Finding>)
    requires Summarises(host, candidate, own)
    ensures forall f :: f in found <==> Expected(host, candidate, other, f)
  {
    var theirs := Sets(host, other.doc);
    var id := ReportedId(other);
    var onId: seq<Finding> := [];
    if SameLeaseId(candidate, other) {
      onId := [Finding(id, LeaseId, candidate.leaseId.value, candidate.leaseId.value)];
    }
    var onRepository := RepositoryFindings(id, own, theirs);
    var onBranch := TableFindings(id, OnBranch, own.branches, theirs.branches);
    var onInfrastructure := TableFindings(id, OnInfrastructure, own.infrastructure, theirs.infrastructure);
    var onPath := PathFindings(id, own.paths, theirs.paths);
    found := onId + onRepository + onBranch + onInfrastructure + onPath;
    forall f ensures f in found <==> Expected(host, candidate, other, f) {
      assert f in found <==> f in onId || f in onRepository || f in onBranch || f in onInfrastructure || f in onPath;
      TablesDecide(host, candidate, other.doc, own, theirs, f);
    }
  }

  // The code's tests on merged tables.
  predicate TableTest(a: map<string, Mode>, b: map<string, Mode>, left: string, right: string) {
    left in a && right in b && (a[left] == Write || b[right] == Write)
  }

  function Combined(s: Reservations): (m: map<string, Mode>)
    ensures forall id :: id in m <==> id in s.repositories || id in s.coordination
    ensures forall id :: id in m ==> (m[id] == Write <==>
      (id in s.repositories && s.repositories[id] == Write)
      || (id in s.coordination && s.coordination[id] == Write))
  {
    map id <- s.repositories.Keys + s.coordination.Keys ::
      if (id in s.repositories && s.repositories[id] == Write)
         || (id in s.coordination && s.coordination[id] == Write)
      then Write else Read
  }

  predicate Tested(own: Reservations, theirs: Reservations, category: Category, left: string, right: string) {
    match category
    case LeaseId => false
    case OnRepository | OnCoordination =>
      left == right && TableTest(Combined(own), Combined(theirs), left, right)
      && (category == OnCoordination <==> left in own.coordination || left in theirs.coordination)
    case OnBranch => left == right && TableTest(own.branches, theirs.branches, left, right)
    case OnInfrastructure => left == right && TableTest(own.infrastructure, theirs.infrastructure, left, right)
    case OnPath => PathsOverlap(left, right) && TableTest(own.paths, theirs.paths, left, right)
  }

  // Testing the merged tables answers the question about the raw claims.
  lemma TablesDecide(host: Host, a: Record, b: Record, own: Reservations, theirs: Reservations, f: Finding)
    requires Summarises(host, a, own) && Summarises(host, b, theirs)
    ensures Tested(own, theirs, f.category, f.left, f.right)
       <==> Warranted(host, a, b, f.category, f.left, f.right)
  {
    var left, right := f.left, f.right;
    match f.category
    case LeaseId =>
    case OnBranch => TabledExclusive(host, a, b, Branch, own.branches, theirs.branches, left, right);
    case OnInfrastructure =>
      TabledExclusive(host, a, b, Infrastructure, own.infrastructure, theirs.infrastructure, left, right);
    case OnPath => TabledExclusive(host, a, b, Path, own.paths, theirs.paths, left, right);
    case OnRepository | OnCoordination =>
      CombinedHolds(host, a, own, left);
      CombinedHolds(host, b, theirs, left);
  }

  lemma TabledExclusive(host: Host, a: Record, b: Record, kind: Kind,
                        own: map<string, Mode>, theirs: map<string, Mode>, left: string, right: string)
    requires Tabulates(host, a, kind, own) && Tabulates(host, b, kind, theirs)
    ensures TableTest(own, theirs, left, right) <==> Exclusive(host, a, b, kind, left, right)
  {
    assert Agrees(own, left, Claims(host, a, kind, left, Read), Claims(host, a, kind, left, Write));
    assert Agrees(theirs, right, Claims(host, b, kind, right, Read), Claims(host, b, kind, right, Write));
  }

  lemma CombinedHolds(host: Host, r: Record, s: Reservations, id: string)
    requires Summarises(host, r, s)
    ensures id in Combined(s) <==> HoldsRepository(host, r, id)
    ensures id in Combined(s) ==> (Combined(s)[id] == Write <==> WritesRepository(host, r, id))
  {
    assert Agrees(s.repositories, id, Claims(host, r, Repository, id, Read), Claims(host, r, Repository, id, Write));
    assert id in s.coordination <==> Holds(host, r, Coordination, id);
  }

  method RepositoryFindings(leaseId: string, own: Reservations, theirs: Reservations)
    returns (found: seq<Finding>)
    ensures forall f :: f in found <==> (f.leaseId == leaseId
      && f.category in {OnRepository, OnCoordination} && Tested(own, theirs, f.category, f.left, f.right))
  {
    var mine, other := Combined(own), Combined(theirs);
    found := [];
    var pending := mine.Keys * other.Keys;
    while pending != {}
      invariant pending <= mine.Keys * other.Keys
      invariant forall f :: f in found <==> (f.leaseId == leaseId && f.left !in pending
        && f.category in {OnRepository, OnCoordination} && Tested(own, theirs, f.category, f.left, f.right))
    {
      var value :| value in pending;
      if mine[value] == Write || other[value] == Write {
        var category := if value in own.coordination || value in theirs.coordination
                        then OnCoordination else OnRepository;
        found := found + [Finding(leaseId, category, value, value)];
      }
      pending := pending - {value};
    }
  }

  method TableFindings(leaseId: string, category: Category, own: map<string, Mode>, theirs: map<string, Mode>)
    returns (found: seq<Finding>)
    ensures forall f :: f in found <==> (f.leaseId == leaseId && f.category == category
      && f.left == f.right && TableTest(own, theirs, f.left, f.right))
  {
    found := [];
    var pending := own.Keys * theirs.Keys;
    while pending != {}
      invariant pending <= own.Keys * theirs.Keys
      invariant forall f :: f in found <==> (f.leaseId == leaseId && f.category == category
        && f.left !in pending && f.left == f.right && TableTest(own, theirs, f.left, f.right))
    {
      var value :| value in pending;
      if own[value] == Write || theirs[value] == Write {
        found := found + [Finding(leaseId, category, value, value)];
      }
      pending := pending - {value};
    }
  }

  method PathFindings(leaseId: string, own: map<string, Mode>, theirs: map<string, Mode>)
    returns (found: seq<Finding>)
    ensures forall f :: f in found <==> (f.leaseId == leaseId && f.category == OnPath
      && PathsOverlap(f.left, f.right) && TableTest(own, theirs, f.left, f.right))
  {
    found := [];
    var lefts := own.Keys;
    while lefts != {}
      invariant lefts <= own.Keys
      invariant forall f :: f in found <==> (f.leaseId == leaseId && f.category == OnPath
        && f.left !in lefts && PathsOverlap(f.left, f.right) && TableTest(own, theirs, f.left, f.right))
    {
      var left :| left in lefts;
      var row := PathRow(leaseId, left, own, theirs);
      ghost var before := found;
      found := found + row;
      assert forall f :: f in found <==> f in before || f in row;
      lefts := lefts - {left};
    }
  }

  method PathRow(leaseId: string, left: string, own: map<string, Mode>, theirs: map<string, Mode>)
    returns (found: seq<Finding>)
    requires left in own
    ensures forall f :: f in found <==> (f.leaseId == leaseId && f.category == OnPath && f.left == left
      && PathsOverlap(left, f.right) && TableTest(own, theirs, left, f.right))
  {
    found := [];
    var rights := theirs.Keys;
    while rights != {}
      invariant rights <= theirs.Keys
      invariant forall f :: f in found <==> (f.leaseId == leaseId && f.category == OnPath && f.left == left
        && f.right !in rights && PathsOverlap(left, f.right) && TableTest(own, theirs, left, f.right))
    {
      var right :| right in rights;
      if PathsOverlap(left, right) && (own[left] == Write || theirs[right] == Write) {
        found := found + [Finding(leaseId, OnPath, left, right)];
      }
      rights := rights - {right};
    }
  }

  // ---- Soundness and completeness ----

  // Some resource finding is warranted exactly when the raw claims conflict.
  lemma WarrantedIffConflict(host: Host, a: Record, b: Record)
    ensures Conflicts(host, a, b)
       <==> exists category, left, right :: Warranted(host, a, b, category, left, right)
  {
    hide Warranted, Clash;
    if Conflicts(host, a, b) {
      var ka, kb, left, right, ma, mb :| Clash(host, a, b, ka, kb, left, right, ma, mb);
      ClashWarrants(host, a, b, ka, kb, left, right, ma, mb);
    }
    if exists category, left, right :: Warranted(host, a, b, category, left, right) {
      var category, left, right :| Warranted(host, a, b, category, left, right);
      WarrantedConflicts(host, a, b, category, left, right);
    }
  }

  lemma ClashWarrants(host: Host, a: Record, b: Record,
                      ka: Kind, kb: Kind, left: string, right: string, ma: Mode, mb: Mode)
    requires Clash(host, a, b, ka, kb, left, right, ma, mb)
    ensures exists category, l, r :: Warranted(host, a, b, category, l, r)
  {
    hide Claims, PathsOverlap;
    var category := match ka
      case Branch => OnBranch
      case Infrastructure => OnInfrastructure
      case Path => OnPath
      case _ => if left in CoordinationIdentities(a) || left in CoordinationIdentities(b)
                then OnCoordination else OnRepository;
    assert Warranted(host, a, b, category, left, right);
  }

  lemma WarrantedConflicts(host: Host, a: Record, b: Record, category: Category, left: string, right: string)
    requires Warranted(host, a, b, category, left, right)
    ensures Conflicts(host, a, b)
  {
    hide Claims;
    match category
    case OnBranch => ExclusiveConflicts(host, a, b, Branch, left, right);
    case OnInfrastructure => ExclusiveConflicts(host, a, b, Infrastructure, left, right);
    case OnPath => ExclusiveConflicts(host, a, b, Path, left, right);
    case OnRepository | OnCoordination =>
      var ka := if Holds(host, a, Repository, left)
                   && (!WritesRepository(host, a, left) || Claims(host, a, Repository, left, Write))
                then Repository else Coordination;
      var kb := if Holds(host, b, Repository, left)
                   && (!WritesRepository(host, b, left) || Claims(host, b, Repository, left, Write))
                then Repository else Coordination;
      var ma := if Claims(host, a, ka, left, Write) then Write else Read;
      var mb := if Claims(host, b, kb, left, Write) then Write else Read;
      assert Clash(host, a, b, ka, kb, left, left, ma, mb);
  }

  lemma ExclusiveConflicts(host: Host, a: Record, b: Record, kind: Kind, left: string, right: string)
    requires Exclusive(host, a, b, kind, left, right) && SameResource(kind, left, right)
    ensures Conflicts(host, a, b)
  {
    hide Claims;
    var ma := if Claims(host, a, kind, left, Write) then Write else Read;
    var mb := if Claims(host, b, kind, right, Write) then Write else Read;
    assert Clash(host, a, b, kind, kind, left, right, ma, mb);
  }

  // The scan's answer, whatever tables it merged: setting lease-id findings
  // aside, nothing is found exactly when no raw claims conflict.
  method Admits(host: Host, candidate: Record, scanned: seq<Scanned>) returns (free: bool, found: seq<Finding>)
    ensures free <==> found == []
    ensures (forall f <- found :: f.category == LeaseId)
       <==> (forall k :: 0 <= k < |scanned| ==> !Conflicts(host, candidate, scanned[k].doc))
    ensures free <==> forall k :: 0 <= k < |scanned| ==>
      !Conflicts(host, candidate, scanned[k].doc) && !SameLeaseId(candidate, scanned[k])
  {
    found := FindOverlaps(host, candidate, scanned);
    free := found == [];
    forall k | 0 <= k < |scanned|
      ensures Conflicts(host, candidate, scanned[k].doc)
         <==> exists f :: f in found && f.category != LeaseId && Expected(host, candidate, scanned[k], f)
      ensures SameLeaseId(candidate, scanned[k])
         ==> exists f :: f in found && f.category == LeaseId
    {
      WarrantedIffConflict(host, candidate, scanned[k].doc);
      if Conflicts(host, candidate, scanned[k].doc) {
        var category, left, right :| Warranted(host, candidate, scanned[k].doc, category, left, right);
        var f := Finding(ReportedId(scanned[k]), category, left, right);
        assert Expected(host, candidate, scanned[k], f);
      }
      if SameLeaseId(candidate, scanned[k]) {
        var id := candidate.leaseId.value;
        assert Expected(host, candidate, scanned[k], Finding(ReportedId(scanned[k]), LeaseId, id, id));
      }
    }
    if found != [] {
      assert found[0] in found;
      ghost var k :| 0 <= k < |scanned| && Expected(host, candidate, scanned[k], found[0]);
    }
  }
}
