// Sealing the durable files of a run, and verifying the seal later.
module Bundles {
  import opened Commons
  import opened Text

  // A path below the bundle root, component by component.
  type Path = seq<string>

  // A link leads to a directory or not, and the run's directory may exist behind it.
  datatype Node = File(bytes: string) | Dir | Link(toDirectory: bool, leadsToRun: bool) | Special

  datatype Tree = Tree(nodes: map<Path, Node>, rootIsLink: bool)

  const DURABLE_DIRECTORIES := ["requests", "plans", "runs", "decisions", "audits", "handoffs"]
  const DURABLE_SUFFIXES := {".json", ".md", ".txt"}
  const SEAL_NAME := "bundle-seal.json"

  // Everything but the top level hangs below a directory.
  ghost predicate WellFormed(t: Tree) {
    && (forall p <- t.nodes :: p != [])
    && forall p <- t.nodes :: |p| > 1 ==> p[..|p| - 1] in t.nodes && t.nodes[p[..|p| - 1]].Dir?
  }

  function Name(p: Path): string
    requires p != []
  {
    p[|p| - 1]
  }

  // Where the last dot of a name stands, or -1.
  function LastDot(s: string): (at: int)
    ensures -1 <= at < |s|
    ensures at >= 0 ==> s[at] == '.'
  {
    if s == "" then -1
    else if s[|s| - 1] == '.' then |s| - 1
    else LastDot(s[..|s| - 1])
  }

  function Suffix(name: string): string {
    var dot := LastDot(name);
    if 0 < dot < |name| - 1 then name[dot..] else ""
  }

  function WithSuffix(p: Path, suffix: string): Path
    requires p != []
  {
    var name := Name(p);
    p[..|p| - 1] + [name[..|name| - |Suffix(name)|] + suffix]
  }

  predicate DurableName(name: string) {
    Fold(Suffix(name)) in DURABLE_SUFFIXES && name != SEAL_NAME
  }

  // ---- The walk ----

  predicate Under(base: Path, p: Path) {
    |base| < |p| && base <= p
  }

  predicate DurableUnder(t: Tree, base: Path, p: Path) {
    p in t.nodes && Under(base, p) && t.nodes[p].File? && DurableName(Name(p))
  }

  ghost predicate LinkUnder(t: Tree, base: Path) {
    exists p :: p in t.nodes && Under(base, p) && t.nodes[p].Link?
  }

  // The paths a stack of directories still has to visit.
  function Waiting(t: Tree, pending: seq<Path>): set<Path> {
    set p <- t.nodes.Keys | exists d :: d in pending && Under(d, p)
  }

  function Children(t: Tree, d: Path): set<Path> {
    set p <- t.nodes.Keys | Under(d, p) && |p| == |d| + 1
  }

  // No directory on the stack lies below another one.
  ghost predicate Apart(pending: seq<Path>) {
    && Distinct(pending)
    && forall a, b :: a in pending && b in pending ==> !Under(a, b)
  }

  ghost predicate WalkInv(t: Tree, base: Path, pending: seq<Path>, files: seq<Path>) {
    && (forall d <- pending :: d in t.nodes && t.nodes[d].Dir? && base <= d)
    && Apart(pending) && Distinct(files)
    && (forall p :: p in files <==> DurableUnder(t, base, p) && p !in Waiting(t, pending))
    && (forall p <- t.nodes :: Under(base, p) && p !in Waiting(t, pending) ==> !t.nodes[p].Link?)
  }

  // One directory's entries: the sub-directories to visit and the files to keep.
  method ScanDirectory(t: Tree, d: Path) returns (ok: bool, dirs: seq<Path>, files: seq<Path>)
    ensures ok <==> forall p <- Children(t, d) :: !t.nodes[p].Link?
    ensures ok ==> (forall p :: p in dirs <==> p in Children(t, d) && t.nodes[p].Dir?) && Distinct(dirs)
    ensures ok ==> (forall p :: p in files <==> p in Children(t, d) && t.nodes[p].File? && DurableName(Name(p)))
                   && Distinct(files)
  {
    hide DurableName;
    ok, dirs, files := true, [], [];
    var entries := Children(t, d);
    while entries != {}
      invariant entries <= Children(t, d)
      invariant forall p <- Children(t, d) - entries :: !t.nodes[p].Link?
      invariant forall p :: p in dirs <==> p in Children(t, d) - entries && t.nodes[p].Dir?
      invariant forall p :: p in files <==> p in Children(t, d) - entries && t.nodes[p].File? && DurableName(Name(p))
      invariant Distinct(dirs) && Distinct(files)
    {
      var p :| p in entries;
      if t.nodes[p].Link? { return false, [], []; }
      if t.nodes[p].Dir? {
        dirs := dirs + [p];
      } else if t.nodes[p].File? && DurableName(Name(p)) {
        files := files + [p];
      }
      entries := entries - {p};
    }
  }

  lemma {:induction false} PrefixIsDirectory(t: Tree, p: Path, n: nat)
    requires WellFormed(t) && p in t.nodes && 0 < n < |p|
    ensures p[..n] in t.nodes && t.nodes[p[..n]].Dir?
    decreases |p|
  {
    var parent := p[..|p| - 1];
    if n < |parent| {
      PrefixIsDirectory(t, parent, n);
      assert parent[..n] == p[..n];
    } else {
      assert p[..n] == parent;
    }
  }

  // What a directory's turn does to the work left: its children leave it.
  lemma WaitingSplits(t: Tree, rest: seq<Path>, d: Path, dirs: seq<Path>)
    requires WellFormed(t) && Apart(rest + [d]) && d != []
    requires forall p :: p in dirs <==> p in Children(t, d) && t.nodes[p].Dir?
    ensures Waiting(t, rest + [d]) == Waiting(t, rest + dirs) + Children(t, d)
    ensures Waiting(t, rest + dirs) !! Children(t, d)
  {
    assert d in rest + [d];
    forall p <- t.nodes
      ensures p in Waiting(t, rest + [d]) <==> p in Waiting(t, rest + dirs) || p in Children(t, d)
      ensures !(p in Waiting(t, rest + dirs) && p in Children(t, d))
    {
      if p in Waiting(t, rest + [d]) && p !in Children(t, d) { StillWaiting(t, rest, d, dirs, p); }
      if p in Waiting(t, rest + dirs) { WasWaiting(t, rest, d, dirs, p); }
      if p in Children(t, d) {
        assert Under(d, p);
        assert p in Waiting(t, rest + [d]);
      }
    }
  }

  lemma StillWaiting(t: Tree, rest: seq<Path>, d: Path, dirs: seq<Path>, p: Path)
    requires WellFormed(t) && d != [] && p in t.nodes
    requires forall p :: p in dirs <==> p in Children(t, d) && t.nodes[p].Dir?
    requires p in Waiting(t, rest + [d]) && p !in Children(t, d)
    ensures p in Waiting(t, rest + dirs)
  {
    var e :| e in rest + [d] && Under(e, p);
    if e in rest {
      assert e in rest + dirs;
    } else {
      var n := |d| + 1;
      PrefixIsDirectory(t, p, n);
      assert p[..n] in Children(t, d);
      assert p[..n] in rest + dirs && Under(p[..n], p);
    }
  }

  lemma WasWaiting(t: Tree, rest: seq<Path>, d: Path, dirs: seq<Path>, p: Path)
    requires Apart(rest + [d]) && p in t.nodes
    requires forall p :: p in dirs <==> p in Children(t, d) && t.nodes[p].Dir?
    requires p in Waiting(t, rest + dirs)
    ensures p in Waiting(t, rest + [d]) && p !in Children(t, d)
  {
    assert d in rest + [d];
    var e :| e in rest + dirs && Under(e, p);
    if e in dirs {
      assert Under(d, p);
    } else {
      assert e in rest + [d];
      if p in Children(t, d) { NotAbove(rest, d, e, p); }
    }
  }

  // Nothing else on the stack lies above a child of d.
  lemma NotAbove(rest: seq<Path>, d: Path, e: Path, p: Path)
    requires Apart(rest + [d]) && e in rest && Under(d, p) && |p| == |d| + 1
    ensures !Under(e, p)
  {
    var i :| 0 <= i < |rest| && rest[i] == e;
    assert (rest + [d])[i] == e && (rest + [d])[|rest|] == d;
    assert e != d && !Under(e, d);
    assert d == p[..|d|];
  }

  lemma ApartAfter(t: Tree, rest: seq<Path>, d: Path, dirs: seq<Path>)
    requires Apart(rest + [d]) && Distinct(dirs)
    requires forall p :: p in dirs <==> p in Children(t, d) && t.nodes[p].Dir?
    ensures Apart(rest + dirs)
  {
    var stack := rest + dirs;
    assert d in rest + [d];
    forall a, b | a in stack && b in stack ensures !Under(a, b) {
      if a in rest && b in rest {
        assert a in rest + [d] && b in rest + [d];
      } else if a in rest {
        NotAbove(rest, d, a, b);
      } else if b in rest {
        assert b in rest + [d];
        assert Under(a, b) ==> Under(d, b);
      }
    }
    forall i, j | 0 <= i < j < |stack| ensures stack[i] != stack[j] {
      if i < |rest| && j >= |rest| {
        assert stack[i] in rest + [d] && stack[j] in dirs;
      } else if i < |rest| {
        assert stack[i] == (rest + [d])[i] && stack[j] == (rest + [d])[j];
      }
    }
  }

  lemma VisitKeeps(t: Tree, base: Path, rest: seq<Path>, d: Path, files: seq<Path>,
                   dirs: seq<Path>, more: seq<Path>)
    requires WellFormed(t) && base != [] && WalkInv(t, base, rest + [d], files)
    requires forall p <- Children(t, d) :: !t.nodes[p].Link?
    requires (forall p :: p in dirs <==> p in Children(t, d) && t.nodes[p].Dir?) && Distinct(dirs)
    requires forall p :: p in more <==> p in Children(t, d) && t.nodes[p].File? && DurableName(Name(p))
    requires Distinct(more)
    ensures WalkInv(t, base, rest + dirs, files + more)
    ensures Waiting(t, rest + dirs) <= Waiting(t, rest + [d])
    ensures dirs != [] ==> Waiting(t, rest + dirs) < Waiting(t, rest + [d])
  {
    if dirs != [] {
      assert dirs[0] in dirs && dirs[0] in Children(t, d);
    }
    assert d in rest + [d];
    WaitingSplits(t, rest, d, dirs);
    ApartAfter(t, rest, d, dirs);
    forall p | p in rest + dirs ensures p in t.nodes && t.nodes[p].Dir? && base <= p {
      assert p in rest ==> p in rest + [d];
      assert p in dirs ==> d <= p;
    }
    assert forall p :: p in Children(t, d) ==> Under(base, p);
    forall i, j | 0 <= i < j < |files + more| ensures (files + more)[i] != (files + more)[j] {
      if i < |files| && j >= |files| {
        assert (files + more)[i] in files && (files + more)[j] in more;
      }
    }
  }

  lemma WalkStarts(t: Tree, base: Path)
    requires base in t.nodes && t.nodes[base].Dir?
    ensures WalkInv(t, base, [base], [])
  {
    assert base in [base];
    assert forall p :: p in Waiting(t, [base]) <==> p in t.nodes && Under(base, p);
  }

  lemma WalkEnds(t: Tree, base: Path, files: seq<Path>)
    requires WalkInv(t, base, [], files)
    ensures !LinkUnder(t, base) && Distinct(files)
    ensures forall p :: p in files <==> DurableUnder(t, base, p)
  {
    assert Waiting(t, []) == {};
  }

  lemma LinkFound(t: Tree, base: Path, rest: seq<Path>, d: Path, files: seq<Path>, p: Path)
    requires WalkInv(t, base, rest + [d], files) && p in Children(t, d) && t.nodes[p].Link?
    ensures LinkUnder(t, base)
  {
    assert d in rest + [d];
    assert Under(base, p);
  }

  // The stack of directories to visit, from a directory that exists. Each
  // durable file below it is found exactly once; any link below it is refused.
  method Walk(t: Tree, base: Path) returns (ok: bool, files: seq<Path>)
    requires WellFormed(t) && base in t.nodes && t.nodes[base].Dir?
    ensures ok <==> !LinkUnder(t, base)
    ensures ok ==> Distinct(files) && forall p :: p in files <==> DurableUnder(t, base, p)
  {
    hide WalkInv, Waiting, DurableUnder, DurableName;
    files := [];
    var pending := [base];
    WalkStarts(t, base);
    while pending != []
      invariant WalkInv(t, base, pending, files)
      decreases Waiting(t, pending), |pending|
    {
      var rest, d := pending[..|pending| - 1], pending[|pending| - 1];
      assert pending == rest + [d];
      var dirs, more;
      ok, dirs, more := ScanDirectory(t, d);
      if !ok {
        ghost var p :| p in Children(t, d) && t.nodes[p].Link?;
        LinkFound(t, base, rest, d, files, p);
        return;
      }
      VisitKeeps(t, base, rest, d, files, dirs, more);
      pending, files := rest + dirs, files + more;
    }
    WalkEnds(t, base, files);
    ok := true;
  }

  // ---- The durable files of a run ----

  predicate BasePresent(t: Tree, directory: string, run: string) {
    || [directory, run] in t.nodes
    || ([directory] in t.nodes && t.nodes[[directory]].Link? && t.nodes[[directory]].leadsToRun)
  }

  // A run directory that is there but cannot be walked: something on the way to
  // it or below it is a link, or it is no directory.
  ghost predicate DirectoryBlocked(t: Tree, directory: string, run: string) {
    && BasePresent(t, directory, run)
    && (t.rootIsLink || [directory, run] !in t.nodes || !t.nodes[[directory, run]].Dir?
        || LinkUnder(t, [directory, run]))
  }

  ghost predicate Blocked(t: Tree, run: string) {
    exists directory :: directory in DURABLE_DIRECTORIES && DirectoryBlocked(t, directory, run)
  }

  predicate Durable(t: Tree, run: string, p: Path) {
    |p| > 0 && p[0] in DURABLE_DIRECTORIES && DurableUnder(t, [p[0], run], p)
  }

  predicate DurableAmong(t: Tree, run: string, directories: seq<string>, p: Path) {
    |p| > 0 && p[0] in directories && DurableUnder(t, [p[0], run], p)
  }

  lemma DirectoriesDistinct(n: nat)
    requires n < |DURABLE_DIRECTORIES|
    ensures DURABLE_DIRECTORIES[n] !in DURABLE_DIRECTORIES[..n]
  {
  }

  method DurableFiles(t: Tree, run: string) returns (ok: bool, files: seq<Path>)
    requires WellFormed(t)
    ensures ok <==> !Blocked(t, run)
    ensures ok ==> Distinct(files) && forall p :: p in files <==> Durable(t, run, p)
  {
    hide DirectoryBlocked, DurableUnder, DURABLE_DIRECTORIES;
    files := [];
    for n := 0 to |DURABLE_DIRECTORIES|
      invariant Distinct(files)
      invariant forall p :: p in files <==> DurableAmong(t, run, DURABLE_DIRECTORIES[..n], p)
      invariant forall directory <- DURABLE_DIRECTORIES[..n] :: !DirectoryBlocked(t, directory, run)
    {
      var directory := DURABLE_DIRECTORIES[n];
      ghost var before := DURABLE_DIRECTORIES[..n];
      var more;
      ok, more := DirectoryFiles(t, directory, run);
      if !ok {
        assert directory in DURABLE_DIRECTORIES;
        return;
      }
      DirectoriesDistinct(n);
      AddDirectory(t, run, before, directory, files, more);
      assert DURABLE_DIRECTORIES[..n + 1] == before + [directory];
      files := files + more;
    }
    assert DURABLE_DIRECTORIES[..|DURABLE_DIRECTORIES|] == DURABLE_DIRECTORIES;
    ok := true;
  }

  lemma NothingBelowNothing(t: Tree, base: Path, p: Path)
    requires WellFormed(t) && base != [] && base !in t.nodes
    ensures !(p in t.nodes && Under(base, p))
  {
    if p in t.nodes && Under(base, p) {
      assert base == p[..|base|];
      PrefixIsDirectory(t, p, |base|);
    }
  }

  method DirectoryFiles(t: Tree, directory: string, run: string) returns (ok: bool, files: seq<Path>)
    requires WellFormed(t)
    ensures ok <==> !DirectoryBlocked(t, directory, run)
    ensures ok ==> Distinct(files) && forall p :: p in files <==> DurableUnder(t, [directory, run], p)
  {
    var base := [directory, run];
    if !BasePresent(t, directory, run) {
      forall p ensures !DurableUnder(t, base, p) {
        NothingBelowNothing(t, base, p);
      }
      return true, [];
    }
    if t.rootIsLink || base !in t.nodes || !t.nodes[base].Dir? { return false, []; }
    ok, files := Walk(t, base);
  }

  lemma AddDirectory(t: Tree, run: string, before: seq<string>, directory: string, files: seq<Path>, more: seq<Path>)
    requires directory !in before
    requires Distinct(files) && forall p :: p in files <==> DurableAmong(t, run, before, p)
    requires Distinct(more) && forall p :: p in more <==> DurableUnder(t, [directory, run], p)
    ensures Distinct(files + more)
    ensures forall p :: p in files + more <==> DurableAmong(t, run, before + [directory], p)
  {
    hide DurableName;
    forall p ensures p in files + more <==> DurableAmong(t, run, before + [directory], p)
             ensures !(p in files && p in more)
    {
      assert p in more ==> p[0] == [directory, run][0];
    }
    forall i, j | 0 <= i < j < |files + more| ensures (files + more)[i] != (files + more)[j] {
      if i < |files| && j >= |files| {
        assert (files + more)[i] in files && (files + more)[j] in more;
      }
    }
  }

  // ---- The seal ----

  // SHA-256 of a file, taken as injective.
  type FileDigest = Digest<string>

  datatype Entry = MalformedEntry | Entry(path: Path, sha: FileDigest)

  datatype BindingDoc =
    | MalformedBinding
    | BindingDoc(json: Path, jsonSha: FileDigest, markdown: Path, markdownSha: FileDigest)

  // `valid` is what schema validation says of the whole document.
  datatype Seal = Seal(run: string, valid: bool, files: seq<Entry>, bindings: seq<BindingDoc>)

  type Snapshot = map<Path, FileDigest>

  function SnapshotOf(t: Tree, run: string): Snapshot {
    map p <- t.nodes | Durable(t, run, p) :: Sha256(t.nodes[p].bytes)
  }

  function MarkdownOf(p: Path): Path
    requires p != []
  {
    WithSuffix(p, ".md")
  }

  // A JSON file with a Markdown file of the same stem beside it.
  predicate Paired(m: Snapshot, p: Path) {
    p in m && p != [] && Fold(Suffix(Name(p))) == ".json" && MarkdownOf(p) in m
  }

  function BindingFor(m: Snapshot, p: Path): BindingDoc
    requires Paired(m, p)
  {
    BindingDoc(p, m[p], MarkdownOf(p), m[MarkdownOf(p)])
  }

  // The document is the binding of some JSON file.
  ghost predicate IsBinding(m: Snapshot, b: BindingDoc) {
    b.BindingDoc? && Paired(m, b.json) && b == BindingFor(m, b.json)
  }

  method Bindings(m: Snapshot, files: seq<Path>) returns (bindings: seq<BindingDoc>)
    requires forall p :: p in files <==> p in m
    ensures forall b :: b in bindings <==> IsBinding(m, b)
  {
    hide Suffix, Fold, WithSuffix;
    bindings := [];
    for n := 0 to |files|
      invariant forall b :: b in bindings ==> IsBinding(m, b)
      invariant forall i :: 0 <= i < n && Paired(m, files[i]) ==> BindingFor(m, files[i]) in bindings
    {
      if Paired(m, files[n]) {
        bindings := bindings + [BindingFor(m, files[n])];
      }
    }
    forall b | IsBinding(m, b) ensures b in bindings {
      assert b.json in files;
    }
  }

  ghost predicate SealsExactly(seal: Seal, m: Snapshot) {
    && (forall e <- seal.files :: e.Entry? && e.path in m && e.sha == m[e.path])
    && (forall p <- m :: Entry(p, m[p]) in seal.files) && Distinct(seal.files)
    && forall b :: b in seal.bindings <==> IsBinding(m, b)
  }

  // What the decoder and the secret patterns say of a file's bytes.
  datatype Audit = Audit(utf8: string -> bool, sensitive: string -> bool)

  predicate Sealable(t: Tree, run: string, audit: Audit) {
    && SnapshotOf(t, run) != map[]
    && forall p <- SnapshotOf(t, run) :: audit.utf8(t.nodes[p].bytes) && !audit.sensitive(t.nodes[p].bytes)
  }

  method SealBundle(t: Tree, run: string, audit: Audit, schemaAccepts: Seal -> bool) returns (r: Option<Seal>)
    requires WellFormed(t)
    ensures r.Some? ==> !Blocked(t, run) && Sealable(t, run, audit)
    ensures r.Some? ==> r.value.run == run && r.value.valid && SealsExactly(r.value, SnapshotOf(t, run))
    ensures (forall s :: schemaAccepts(s)) ==> (r.Some? <==> !Blocked(t, run) && Sealable(t, run, audit))
  {
    var m := SnapshotOf(t, run);
    var ok, files := DurableFiles(t, run);
    if !ok { return None; }
    assert forall p :: p in files <==> p in m;
    if files == [] {
      assert m == map[];
      return None;
    }
    assert files[0] in files && files[0] in m;
    if exists p <- files :: !audit.utf8(t.nodes[p].bytes) || audit.sensitive(t.nodes[p].bytes) {
      return None;
    }
    var entries := Entries(m, files);
    var bindings := Bindings(m, files);
    var seal := Seal(run, true, entries, bindings);
    if !schemaAccepts(seal) { return None; }
    return Some(seal);
  }

  method Entries(m: Snapshot, files: seq<Path>) returns (entries: seq<Entry>)
    requires Distinct(files) && forall p :: p in files <==> p in m
    ensures forall e <- entries :: e.Entry? && e.path in m && e.sha == m[e.path]
    ensures (forall p <- m :: Entry(p, m[p]) in entries) && Distinct(entries)
  {
    entries := [];
    for n := 0 to |files|
      invariant |entries| == n
      invariant forall i :: 0 <= i < n ==> files[i] in m && entries[i] == Entry(files[i], m[files[i]])
    {
      assert files[n] in files;
      entries := entries + [Entry(files[n], m[files[n]])];
    }
    forall p <- m ensures Entry(p, m[p]) in entries {
      var i :| 0 <= i < |files| && files[i] == p;
      assert entries[i] == Entry(p, m[p]);
    }
  }

  // ---- Verification ----

  predicate EntriesMatch(entries: seq<Entry>, m: Snapshot) {
    && (forall e <- entries :: e.Entry? && e.path in m && e.sha == m[e.path])
    && (forall i, j :: 0 <= i < j < |entries| && entries[i].Entry? && entries[j].Entry? ==>
          entries[i].path != entries[j].path)
    && forall p <- m :: Entry(p, m[p]) in entries
  }

  predicate BindingHolds(b: BindingDoc, m: Snapshot) {
    && b.BindingDoc? && b.json in m && m[b.json] == b.jsonSha && b.markdown in m && m[b.markdown] == b.markdownSha
    && Paired(m, b.json) && b.markdown == MarkdownOf(b.json)
  }

  predicate BindingsMatch(bindings: seq<BindingDoc>, m: Snapshot) {
    && (forall b <- bindings :: BindingHolds(b, m))
    && forall p <- m :: Paired(m, p) ==> BindingFor(m, p) in bindings
  }

  ghost predicate Verifies(t: Tree, run: string, seal: Seal) {
    && seal.valid && seal.run == run && !Blocked(t, run)
    && EntriesMatch(seal.files, SnapshotOf(t, run)) && BindingsMatch(seal.bindings, SnapshotOf(t, run))
  }

  // For every document read as a seal, genuine or not.
  method VerifyBundle(t: Tree, run: string, seal: Seal) returns (ok: bool)
    requires WellFormed(t)
    ensures ok <==> Verifies(t, run, seal)
  {
    hide EntriesMatch, BindingsMatch, DirectoryBlocked, WellFormed;
    var findings := 0;
    if !seal.valid { findings := findings + 1; }
    if seal.run != run { findings := findings + 1; }
    var walked, files := DurableFiles(t, run);
    if !walked { findings, files := findings + 1, []; }
    var actual: Snapshot := map p <- files :: if p in t.nodes && t.nodes[p].File? then Sha256(t.nodes[p].bytes) else Sha256("");
    assert walked ==> actual == SnapshotOf(t, run);
    var entries := CheckEntries(seal.files, actual);
    var bindings := CheckBindings(seal.bindings, actual);
    ok := findings == 0 && entries && bindings;
  }

  ghost predicate AllDistinct(entries: seq<Entry>) {
    && (forall e <- entries :: e.Entry?)
    && forall i, j :: 0 <= i < j < |entries| && entries[i].Entry? && entries[j].Entry? ==>
         entries[i].path != entries[j].path
  }

  // What the dictionary built from the entries holds: every declared path, and
  // as many as there are entries only when they are well formed and distinct.
  ghost predicate Dictionary(entries: seq<Entry>, declared: Snapshot) {
    && (forall p :: p in declared <==> DeclaredBy(entries, p))
    && |declared| <= |entries| && (|declared| == |entries| <==> AllDistinct(entries))
    && (AllDistinct(entries) ==> forall e <- entries :: e.Entry? ==> e.path in declared && declared[e.path] == e.sha)
  }

  lemma DictionaryStep(before: seq<Entry>, e: Entry, declared: Snapshot)
    requires Dictionary(before, declared)
    ensures Dictionary(before + [e], if e.Entry? then declared[e.path := e.sha] else declared)
  {
    var next := if e.Entry? then declared[e.path := e.sha] else declared;
    DistinctStep(before, e);
    if e.Entry? {
      assert next.Keys == declared.Keys + {e.path};
      assert e.path in declared ==> next.Keys == declared.Keys;
      assert |next| == |next.Keys| && |declared| == |declared.Keys|;
    }
    if AllDistinct(before + [e]) {
      forall x <- before + [e] | x.Entry? ensures x.path in next && next[x.path] == x.sha {
        assert x in before ==> DeclaredBy(before, x.path);
      }
    }
  }

  method Declare(entries: seq<Entry>) returns (declared: Snapshot)
    ensures Dictionary(entries, declared)
  {
    hide Dictionary;
    declared := map[];
    assert Dictionary(entries[..0], declared) by { EmptyDictionary(); }
    for n := 0 to |entries|
      invariant Dictionary(entries[..n], declared)
    {
      DictionaryStep(entries[..n], entries[n], declared);
      assert entries[..n + 1] == entries[..n] + [entries[n]];
      if entries[n].Entry? {
        declared := declared[entries[n].path := entries[n].sha];
      }
    }
    assert entries[..|entries|] == entries;
  }

  lemma EmptyDictionary()
    ensures Dictionary([], map[])
  {
  }

  // A dictionary of the entries, compared with what is there.
  method CheckEntries(entries: seq<Entry>, actual: Snapshot) returns (ok: bool)
    ensures ok <==> EntriesMatch(entries, actual)
  {
    var declared := Declare(entries);
    var distinct := |declared| == |entries|;
    var missing := exists p <- declared.Keys :: p !in actual;
    var extra := exists p <- actual.Keys :: p !in declared;
    var changed := exists p <- declared.Keys * actual.Keys :: declared[p] != actual[p];
    ok := distinct && !missing && !extra && !changed;
    assert (!missing && !extra && !changed) <==> declared == actual;
    if distinct {
      EntriesAsMap(entries, declared, actual);
    }
  }

  predicate DeclaredBy(entries: seq<Entry>, p: Path) {
    exists e <- entries :: e.Entry? && e.path == p
  }

  lemma DistinctStep(entries: seq<Entry>, e: Entry)
    ensures AllDistinct(entries + [e]) <==> AllDistinct(entries) && e.Entry? && !DeclaredBy(entries, e.path)
    ensures forall p :: DeclaredBy(entries + [e], p) <==> DeclaredBy(entries, p) || (e.Entry? && e.path == p)
  {
    var more := entries + [e];
    assert forall x :: x in more <==> x in entries || x == e;
    if AllDistinct(more) {
      assert e in more && more[|entries|] == e;
      assert forall i :: 0 <= i < |entries| ==> more[i] == entries[i];
    }
  }

  lemma EntriesAsMap(entries: seq<Entry>, declared: Snapshot, actual: Snapshot)
    requires AllDistinct(entries) && Dictionary(entries, declared)
    ensures declared == actual <==> EntriesMatch(entries, actual)
  {
    if declared == actual {
      forall p <- actual ensures Entry(p, actual[p]) in entries {
        assert DeclaredBy(entries, p);
        var e :| e in entries && e.Entry? && e.path == p;
      }
    }
    if EntriesMatch(entries, actual) {
      forall p <- declared ensures p in actual && declared[p] == actual[p] {
        assert DeclaredBy(entries, p);
        var e :| e in entries && e.Entry? && e.path == p;
      }
      forall p <- actual ensures p in declared {
        assert Entry(p, actual[p]) in entries;
      }
    }
  }

  // Both files of every declared pair, then the pairs themselves.
  method CheckBindings(bindings: seq<BindingDoc>, actual: Snapshot) returns (ok: bool)
    ensures ok <==> BindingsMatch(bindings, actual)
  {
    ok := true;
    for n := 0 to |bindings|
      invariant ok <==> forall i :: 0 <= i < n ==> TargetsMatch(bindings[i], actual)
    {
      var b := bindings[n];
      if b.MalformedBinding? {
        ok := false;
      } else {
        if b.json !in actual { ok := false; } else if actual[b.json] != b.jsonSha { ok := false; }
        if b.markdown !in actual { ok := false; } else if actual[b.markdown] != b.markdownSha { ok := false; }
      }
    }
    var actualKeys := set p <- actual | Paired(actual, p) :: (p, MarkdownOf(p));
    var declaredKeys := set b <- bindings | b.BindingDoc? :: (b.json, b.markdown);
    if ok {
      KeysDecide(bindings, actual, actualKeys, declaredKeys);
    } else {
      ghost var i :| 0 <= i < |bindings| && !TargetsMatch(bindings[i], actual);
      assert bindings[i] in bindings && !BindingHolds(bindings[i], actual);
    }
    ok := ok && actualKeys - declaredKeys == {} && declaredKeys - actualKeys == {};
  }

  predicate TargetsMatch(b: BindingDoc, m: Snapshot) {
    b.BindingDoc? && b.json in m && m[b.json] == b.jsonSha && b.markdown in m && m[b.markdown] == b.markdownSha
  }

  lemma KeysDecide(bindings: seq<BindingDoc>, m: Snapshot, actual: set<(Path, Path)>, declared: set<(Path, Path)>)
    requires forall i :: 0 <= i < |bindings| ==> TargetsMatch(bindings[i], m)
    requires actual == set p <- m | Paired(m, p) :: (p, MarkdownOf(p))
    requires declared == set b <- bindings | b.BindingDoc? :: (b.json, b.markdown)
    ensures (actual - declared == {} && declared - actual == {}) <==> BindingsMatch(bindings, m)
  {
    hide Suffix, Fold, WithSuffix;
    if actual - declared == {} && declared - actual == {} {
      forall b <- bindings ensures BindingHolds(b, m) {
        assert TargetsMatch(b, m);
        assert (b.json, b.markdown) in declared && (b.json, b.markdown) in actual;
      }
      forall p <- m | Paired(m, p) ensures BindingFor(m, p) in bindings {
        assert (p, MarkdownOf(p)) in actual && (p, MarkdownOf(p)) in declared;
        var b :| b in bindings && b.BindingDoc? && (b.json, b.markdown) == (p, MarkdownOf(p));
        assert TargetsMatch(b, m);
      }
    }
    if BindingsMatch(bindings, m) {
      forall k <- actual ensures k in declared {
        var p :| p in m && Paired(m, p) && k == (p, MarkdownOf(p));
        assert BindingFor(m, p) in bindings;
      }
      forall k <- declared ensures k in actual {
        var b :| b in bindings && b.BindingDoc? && k == (b.json, b.markdown);
        assert BindingHolds(b, m);
      }
    }
  }

  // ---- Sealed, then verified ----

  lemma SealMatchesOnlyItsSnapshot(seal: Seal, m: Snapshot, later: Snapshot)
    requires SealsExactly(seal, m)
    ensures EntriesMatch(seal.files, later) && BindingsMatch(seal.bindings, later) <==> later == m
  {
    if EntriesMatch(seal.files, later) {
      forall p ensures p in later <==> p in m
               ensures p in m ==> later[p] == m[p]
      {
        assert p in later ==> Entry(p, later[p]) in seal.files;
        assert p in m ==> Entry(p, m[p]) in seal.files;
      }
      assert later == m;
    }
  }

  // Whatever files were added, removed, moved or edited since: verification
  // succeeds exactly when the run can still be walked and every durable path
  // has the digest it had.
  lemma VerifiedIffUnchanged(t: Tree, run: string, seal: Seal, later: Tree)
    requires seal.valid && seal.run == run && SealsExactly(seal, SnapshotOf(t, run))
    ensures Verifies(later, run, seal) <==> !Blocked(later, run) && SnapshotOf(later, run) == SnapshotOf(t, run)
  {
    SealMatchesOnlyItsSnapshot(seal, SnapshotOf(t, run), SnapshotOf(later, run));
  }

  // mkdir of runs/<run> with its parents, then the atomic write of the seal.
  function AfterSealWrite(t: Tree, run: string, bytes: string): Option<Tree> {
    var runs, base, target := ["runs"], ["runs", run], ["runs", run, SEAL_NAME];
    if runs in t.nodes && t.nodes[runs].Link? then
      if t.nodes[runs].toDirectory then Some(t.(nodes := t.nodes[runs := Link(true, true)])) else None
    else if runs in t.nodes && !t.nodes[runs].Dir? then None
    else if base in t.nodes && !t.nodes[base].Dir? then None
    else if target in t.nodes && t.nodes[target].Dir? then None
    else Some(t.(nodes := t.nodes[runs := Dir][base := Dir][target := File(bytes)]))
  }

  // Writing the seal changes no durable file, and leaves the run walkable
  // unless the runs directory is itself a link.
  lemma SealSurvivesItsOwnWriting(t: Tree, run: string, bytes: string)
    requires WellFormed(t) && !Blocked(t, run) && !t.rootIsLink && AfterSealWrite(t, run, bytes).Some?
    ensures var after := AfterSealWrite(t, run, bytes).value;
      && SnapshotOf(after, run) == SnapshotOf(t, run)
      && (Blocked(after, run) <==> ["runs"] in t.nodes && t.nodes[["runs"]].Link?)
  {
    var after := AfterSealWrite(t, run, bytes).value;
    SealIsNotDurable(t, run, bytes);
    assert "runs" in DURABLE_DIRECTORIES;
    if ["runs"] in t.nodes && t.nodes[["runs"]].Link? {
      LinkedRunsBlocks(t, run, bytes);
    } else {
      forall directory | directory in DURABLE_DIRECTORIES ensures !DirectoryBlocked(after, directory, run) {
        assert !DirectoryBlocked(t, directory, run);
        SealAddsNoLink(t, run, bytes, directory);
      }
    }
  }

  lemma LinkedRunsBlocks(t: Tree, run: string, bytes: string)
    requires WellFormed(t) && AfterSealWrite(t, run, bytes).Some? && ["runs"] in t.nodes && t.nodes[["runs"]].Link?
    ensures DirectoryBlocked(AfterSealWrite(t, run, bytes).value, "runs", run)
  {
    var base := ["runs", run];
    assert base[..1] == ["runs"];
  }

  lemma SealIsNotDurable(t: Tree, run: string, bytes: string)
    requires AfterSealWrite(t, run, bytes).Some?
    ensures SnapshotOf(AfterSealWrite(t, run, bytes).value, run) == SnapshotOf(t, run)
  {
    hide Suffix, Fold;
    var after := AfterSealWrite(t, run, bytes).value;
    forall p ensures Durable(after, run, p) <==> Durable(t, run, p)
             ensures Durable(t, run, p) ==> after.nodes[p] == t.nodes[p]
    {
      if p in [["runs"], ["runs", run], ["runs", run, SEAL_NAME]] {
        SealPathsAreNotDurable(t, run, p);
        SealPathsAreNotDurable(after, run, p);
      }
    }
  }

  lemma SealPathsAreNotDurable(t: Tree, run: string, p: Path)
    requires p in [["runs"], ["runs", run], ["runs", run, SEAL_NAME]]
    ensures !Durable(t, run, p)
  {
  }

  lemma SealAddsNoLink(t: Tree, run: string, bytes: string, directory: string)
    requires AfterSealWrite(t, run, bytes).Some? && !(["runs"] in t.nodes && t.nodes[["runs"]].Link?)
    requires WellFormed(t) && !t.rootIsLink && !DirectoryBlocked(t, directory, run)
    ensures !DirectoryBlocked(AfterSealWrite(t, run, bytes).value, directory, run)
  {
    var after := AfterSealWrite(t, run, bytes).value;
    var base := [directory, run];
    forall p | p in after.nodes && after.nodes[p].Link?
      ensures !Under(base, p)
    {
      assert p in t.nodes && t.nodes[p].Link?;
      if base !in t.nodes { NothingBelowNothing(t, base, p); }
    }
    assert directory != "runs" ==> [directory, run] in after.nodes ==> [directory, run] in t.nodes;
  }

  // A run that can be sealed and then never verified again: `runs` is a link
  // to a directory without the run.
  function LinkedRuns(): Tree {
    Tree(map[["runs"] := Link(true, false), ["plans"] := Dir, ["plans", "r"] := Dir,
             ["plans", "r", "p.md"] := File("x")], false)
  }

  lemma LinkedRunsAreWellFormed()
    ensures WellFormed(LinkedRuns())
  {
    var run, file := ["plans", "r"], ["plans", "r", "p.md"];
    assert file[..2] == run && run[..1] == ["plans"];
  }

  lemma LinkedRunsAreWalkable(directory: string)
    ensures !DirectoryBlocked(LinkedRuns(), directory, "r")
  {
    var t, base := LinkedRuns(), [directory, "r"];
    assert base != ["plans", "r", "p.md"];
    if directory != "plans" {
      assert base[0] == directory;
      assert base !in t.nodes;
    } else {
      assert t.nodes[base].Dir?;
    }
  }

  lemma LinkedRunsUnblocked(bytes: string)
    ensures var t := LinkedRuns();
      && !Blocked(t, "r") && AfterSealWrite(t, "r", bytes).Some? && !t.rootIsLink
      && ["runs"] in t.nodes && t.nodes[["runs"]].Link?
  {
    hide DirectoryBlocked;
    forall directory ensures !DirectoryBlocked(LinkedRuns(), directory, "r") { LinkedRunsAreWalkable(directory); }
  }

  lemma LinkedRunsAreSealable(audit: Audit)
    requires audit.utf8("x") && !audit.sensitive("x")
    ensures Sealable(LinkedRuns(), "r", audit)
  {
    hide DurableName;
    var t, file := LinkedRuns(), ["plans", "r", "p.md"];
    assert file[..2] == ["plans", "r"];
    PlanIsDurable();
    assert Durable(t, "r", file);
    assert file in SnapshotOf(t, "r");
    forall p | p in SnapshotOf(t, "r") ensures p == file {
      assert t.nodes[p].File?;
    }
  }

  lemma PlanIsDurable()
    ensures DurableName("p.md")
  {
    var name, suffix := "p.md", ".md";
    assert name[..3] == "p.m" && "p.m"[..2] == "p.";
    assert LastDot("p.") == 1 && LastDot("p.m") == 1;
    assert name[1..] == suffix;
    assert Fold(suffix) == suffix;
  }

  lemma LinkedRunsSealOnce(audit: Audit, bytes: string, seal: Seal)
    requires audit.utf8("x") && !audit.sensitive("x")
    requires seal.valid && seal.run == "r" && SealsExactly(seal, SnapshotOf(LinkedRuns(), "r"))
    ensures !Blocked(LinkedRuns(), "r") && Sealable(LinkedRuns(), "r", audit)
    ensures AfterSealWrite(LinkedRuns(), "r", bytes).Some?
    ensures Verifies(LinkedRuns(), "r", seal) && !Verifies(AfterSealWrite(LinkedRuns(), "r", bytes).value, "r", seal)
  {
    hide *;
    LinkedRunsUnblocked(bytes);
    LinkedRunsAreWellFormed();
    LinkedRunsAreSealable(audit);
    VerifiedIffUnchanged(LinkedRuns(), "r", seal, LinkedRuns());
    VerifiedIffUnchanged(LinkedRuns(), "r", seal, AfterSealWrite(LinkedRuns(), "r", bytes).value);
    SealSurvivesItsOwnWriting(LinkedRuns(), "r", bytes);
  }
}
