// Whether any decision at all can cover a lease.
module Coverage {
  import opened Commons
  import opened Text
  import opened Records
  import opened Grammar
  import opened Repositories
  import opened Scopes
  import opened ScopeFixpoints
  import opened Overlap
  import opened Lifecycle

  predicate ValidV2(host: Host, r: Record, allow: bool) {
    r.schema == V2 && ValidLease(host, r, allow, true)
  }

  // Every repository, branch and path a valid v2 lease reserves is a canonical
  // decision-scope entry as it stands, but for a branch whose reference ends in
  // the newline that the schema pattern lets through.
  lemma ReservedAreEntries(host: Host, r: Record, allow: bool, kind: Kind, id: string, mode: Mode)
    requires Lexical(host) && ValidV2(host, r, allow) && kind != Infrastructure
    requires Claims(host, r, kind, id, mode)
    ensures Entry(host, id) <==> !(kind == Branch && EndsInNewline(id))
  {
    hide Entry, V2Name, BranchRef, ValidLease, Lexical, ItemClaims, PathIdentities;
    match kind
    case Coordination => CoordinationIsEntry(host, r, allow, id);
    case Repository => ItemClaimIsEntry(host, r, allow, kind, id, mode);
    case Branch => ItemClaimIsEntry(host, r, allow, kind, id, mode);
    case Path =>
      if FromItem(host, r, Path, id, mode) {
        ItemClaimIsEntry(host, r, allow, kind, id, mode);
      } else {
        var i :| 0 <= i < |r.localScopes| && id in PathIdentities(host, r, r.localScopes[i]);
        LocalScopeIsEntry(host, r, allow, r.localScopes[i], id);
      }
  }

  lemma CoordinationIsEntry(host: Host, r: Record, allow: bool, id: string)
    requires Lexical(host) && ValidV2(host, r, allow) && id in CoordinationIdentities(r)
    ensures Entry(host, id)
  {
    hide Entry, V2Name, Lexical;
    RepositoryIdentity(r.coordination.value, id);
    NameIsEntry(host, id);
  }

  lemma ItemClaimIsEntry(host: Host, r: Record, allow: bool, kind: Kind, id: string, mode: Mode)
    requires Lexical(host) && ValidV2(host, r, allow) && FromItem(host, r, kind, id, mode)
    ensures Entry(host, id) <==> !(kind == Branch && EndsInNewline(id))
  {
    hide Entry, ValidLease, Lexical, ItemClaims;
    var i :| 0 <= i < |r.repositories| && ItemClaim(host, r, r.repositories[i], kind, id, mode);
    ItemResourceIsEntry(host, r, allow, r.repositories[i], kind, id);
  }

  lemma LocalScopeIsEntry(host: Host, r: Record, allow: bool, scope: string, id: string)
    requires Lexical(host) && ValidV2(host, r, allow)
    requires scope in r.localScopes && id in PathIdentities(host, r, scope)
    ensures Entry(host, id)
  {
    hide Entry, Lexical, V2AbsoluteScope, NativeAbsoluteScope;
    PathIsEntry(host, scope, id);
  }

  // What validity says of one item.
  lemma ItemFacts(host: Host, r: Record, allow: bool, item: Item)
    requires ValidV2(host, r, allow) && item in r.repositories && item.Item?
    ensures V2Name(Chomp(item.repository))
    ensures item.branchRef.Some? ==> BranchRef(Chomp(item.branchRef.value))
    ensures item.canonicalPath.Some? ==>
      V2AbsoluteScope(item.canonicalPath.value) && NativeAbsoluteScope(item.canonicalPath.value, host.posix)
    ensures item.worktreeRoot.Some? ==>
      V2AbsoluteScope(item.worktreeRoot.value) && NativeAbsoluteScope(item.worktreeRoot.value, host.posix)
  {
    hide V2AbsoluteScope, NativeAbsoluteScope, V2Name, BranchRef, Chomp, Identities;
  }

  lemma ItemResourceIsEntry(host: Host, r: Record, allow: bool, item: Item, kind: Kind, id: string)
    requires Lexical(host) && ValidV2(host, r, allow) && item in r.repositories && item.Item?
    requires id in ItemClaims(host, r, item, kind)
    ensures Entry(host, id) <==> !(kind == Branch && EndsInNewline(id))
  {
    hide Entry, Lexical, V2AbsoluteScope, NativeAbsoluteScope, V2Name, BranchRef, OverlapIdentities, Fold, ValidLease,
      EndsInNewline, Blank, Chomp;
    ItemFacts(host, r, allow, item);
    match kind
    case Repository =>
      RepositoryIdentity(item.repository, id);
      NameIsEntry(host, id);
    case Branch =>
      var name :| name in ItemIdentities(r, item) && id == BranchIdentity(name, item.branchRef.value);
      RepositoryIdentity(item.repository, name);
      BranchIsEntry(host, name, item.branchRef.value);
      BranchEnds(r, item, id);
    case Path =>
      if id in OptionalPaths(host, r, item.canonicalPath) {
        PathIsEntry(host, item.canonicalPath.value, id);
      } else {
        PathIsEntry(host, item.worktreeRoot.value, id);
      }
    case _ =>
  }

  // ---- The resources of a record, as one finite set ----

  function ItemResources(host: Host, r: Record, item: Item): set<string> {
    ItemClaims(host, r, item, Repository) + ItemClaims(host, r, item, Branch) + ItemClaims(host, r, item, Path)
  }

  function Resources(host: Host, r: Record): set<string> {
    (set item, id | item in r.repositories && id in ItemResources(host, r, item) :: id)
    + (set scope, id | scope in r.localScopes && id in PathIdentities(host, r, scope) :: id)
    + (set scope | scope in r.infrastructure && !Blank(scope) :: Fold(Strip(scope)))
    + CoordinationIdentities(r)
  }

  lemma ClaimedIsResource(host: Host, r: Record, kind: Kind, id: string, mode: Mode)
    requires Claims(host, r, kind, id, mode)
    ensures id in Resources(host, r)
  {
    hide ItemClaims, PathIdentities, CoordinationIdentities, Fold, Strip, Blank;
    match kind
    case Coordination =>
    case Infrastructure =>
    case Repository => ItemClaimIsResource(host, r, kind, id, mode);
    case Branch => ItemClaimIsResource(host, r, kind, id, mode);
    case Path =>
      if FromItem(host, r, Path, id, mode) {
        ItemClaimIsResource(host, r, kind, id, mode);
      } else {
        var i :| 0 <= i < |r.localScopes| && id in PathIdentities(host, r, r.localScopes[i]);
        assert r.localScopes[i] in r.localScopes;
      }
  }

  lemma ItemClaimIsResource(host: Host, r: Record, kind: Kind, id: string, mode: Mode)
    requires FromItem(host, r, kind, id, mode)
    ensures id in Resources(host, r)
  {
    hide PathIdentities, CoordinationIdentities, Fold, Strip, Blank, ItemIdentities, ItemPaths, ItemBranches;
    var i :| 0 <= i < |r.repositories| && ItemClaim(host, r, r.repositories[i], kind, id, mode);
    var item := r.repositories[i];
    assert item in r.repositories && id in ItemResources(host, r, item);
  }

  lemma ResourceIsClaimed(host: Host, r: Record, id: string)
    requires id in Resources(host, r)
    ensures exists kind, mode :: Claims(host, r, kind, id, mode)
  {
    hide PathIdentities, CoordinationIdentities, Fold, Strip, Blank, ItemIdentities, ItemPaths, ItemBranches;
    if item :| item in r.repositories && id in ItemResources(host, r, item) {
      var i :| 0 <= i < |r.repositories| && r.repositories[i] == item;
      var kind := if id in ItemClaims(host, r, item, Repository) then Repository
                  else if id in ItemClaims(host, r, item, Branch) then Branch else Path;
      assert ItemClaim(host, r, r.repositories[i], kind, id, ModeOf(r, item));
      assert Claims(host, r, kind, id, ModeOf(r, item));
    } else if scope :| scope in r.localScopes && id in PathIdentities(host, r, scope) {
      var i :| 0 <= i < |r.localScopes| && r.localScopes[i] == scope;
      assert id in PathIdentities(host, r, r.localScopes[i]);
      assert Claims(host, r, Path, id, Write);
    } else if id in CoordinationIdentities(r) {
      assert Claims(host, r, Coordination, id, if Shared(r) then Read else Write);
    } else {
      var scope :| scope in r.infrastructure && !Blank(scope) && id == Fold(Strip(scope));
      var i :| 0 <= i < |r.infrastructure| && r.infrastructure[i] == scope;
      assert Claims(host, r, Infrastructure, id, Write);
    }
  }

  // A set written out as a list without repetitions.
  lemma {:induction false} Listed(s: set<string>) returns (list: seq<string>)
    ensures Distinct(list) && forall x :: x in list <==> x in s
    decreases |s|
  {
    if s == {} {
      list := [];
    } else {
      var x :| x in s;
      var rest := Listed(s - {x});
      list := [x] + rest;
      forall i, j | 0 <= i < j < |list| ensures list[i] != list[j] {
        assert list[j] == rest[j - 1] && rest[j - 1] in rest;
      }
    }
  }

  // Every infrastructure identity is canonical and no branch reference ends in
  // a newline.
  ghost predicate Coverable(host: Host, r: Record) {
    && (forall id :: FromInfrastructure(r, id) ==> Entry(host, id))
    && forall item <- r.repositories :: item.Item? && item.branchRef.Some? ==> !EndsInNewline(item.branchRef.value)
  }

  // Some decision scope covers a valid v2 lease exactly then.
  lemma CoverExistsIff(host: Host, r: Record, allow: bool)
    requires Lexical(host) && ValidV2(host, r, allow)
    ensures (exists scope :: Covers(host, r, scope)) <==> Coverable(host, r)
  {
    hide Entry, Lexical, ValidV2;
    if scope :| Covers(host, r, scope) {
      CoveredIsCoverable(host, r, allow, scope);
    }
    if Coverable(host, r) {
      ResourcesCover(host, r, allow);
    }
  }

  lemma CoveredIsCoverable(host: Host, r: Record, allow: bool, scope: seq<string>)
    requires Lexical(host) && ValidV2(host, r, allow) && Covers(host, r, scope)
    ensures Coverable(host, r)
  {
    hide Lexical, ValidV2, CanonicalEntry;
    forall id | FromInfrastructure(r, id) ensures Entry(host, id) {
      assert Claims(host, r, Infrastructure, id, Write);
      assert id in scope;
    }
    forall item <- r.repositories | item.Item? && item.branchRef.Some? ensures !EndsInNewline(item.branchRef.value) {
      var id := BranchClaimed(host, r, allow, item);
      assert id in scope && Entry(host, id);
      ReservedAreEntries(host, r, allow, Branch, id, ModeOf(r, item));
    }
  }

  // A branch reference is a claim, and its identity ends as it does.
  lemma BranchClaimed(host: Host, r: Record, allow: bool, item: Item) returns (id: string)
    requires ValidV2(host, r, allow) && item in r.repositories && item.Item? && item.branchRef.Some?
    ensures Claims(host, r, Branch, id, ModeOf(r, item))
    ensures EndsInNewline(id) <==> EndsInNewline(item.branchRef.value)
  {
    hide BranchRef, Claims, EndsInNewline, ModeOf, Shared, ValidV2, V2Name, Chomp;
    ItemFacts(host, r, allow, item);
    BranchIsNotBlank(item.branchRef.value);
    id := BranchId(r, item);
    BranchIsClaimed(host, r, item, id);
    BranchEnds(r, item, id);
  }

  lemma BranchId(r: Record, item: Item) returns (id: string)
    requires item.Item? && item.branchRef.Some? && !Blank(item.branchRef.value)
    ensures id in ItemBranches(r, item)
  {
    hide CanonicalRepo, CanonicalRepoV2, Blank;
    var name := CanonicalRepo(item.repository);
    id := BranchIdentity(name, item.branchRef.value);
    assert name in ItemIdentities(r, item);
  }

  lemma BranchIsClaimed(host: Host, r: Record, item: Item, id: string)
    requires item in r.repositories && item.Item? && id in ItemBranches(r, item)
    ensures Claims(host, r, Branch, id, ModeOf(r, item))
  {
    hide ItemBranches, ModeOf;
    var i :| 0 <= i < |r.repositories| && r.repositories[i] == item;
    assert ItemClaim(host, r, r.repositories[i], Branch, id, ModeOf(r, item));
  }

  lemma BranchIsNotBlank(branch: string)
    requires BranchRef(Chomp(branch))
    ensures branch != "" && !Blank(branch)
  {
    assert branch[0] == Chomp(branch)[0] == 'r';
    StripLeftEnd(branch, IsSpace);
    StripRightKeeps(branch, IsSpace, 0);
  }

  // A kept character keeps everything before it.
  lemma {:induction false} StripRightKeeps(s: string, drop: char -> bool, i: nat)
    requires i < |s| && !drop(s[i])
    ensures StripRight(s, drop) != ""
    decreases |s|
  {
    if drop(s[|s| - 1]) { StripRightKeeps(s[..|s| - 1], drop, i); }
  }

  lemma ResourcesCover(host: Host, r: Record, allow: bool)
    requires Lexical(host) && ValidV2(host, r, allow) && Coverable(host, r)
    ensures exists scope :: Covers(host, r, scope)
  {
    hide Resources, Claims, Lexical, ValidV2, CanonicalEntry, Coverable;
    var scope := Listed(Resources(host, r));
    forall entry <- scope ensures Entry(host, entry) {
      ResourceIsClaimed(host, r, entry);
      var kind, mode :| Claims(host, r, kind, entry, mode);
      ClaimIsEntry(host, r, allow, kind, entry, mode);
    }
    forall kind, id, mode | Claims(host, r, kind, id, mode) ensures id in scope {
      ClaimedIsResource(host, r, kind, id, mode);
    }
    assert Covers(host, r, scope);
  }

  lemma ClaimIsEntry(host: Host, r: Record, allow: bool, kind: Kind, id: string, mode: Mode)
    requires Lexical(host) && ValidV2(host, r, allow) && Coverable(host, r) && Claims(host, r, kind, id, mode)
    ensures Entry(host, id)
  {
    hide Entry, Lexical, ValidV2, ItemIdentities;
    if kind == Infrastructure {
      InfrastructureClaim(host, r, id, mode);
    } else {
      ReservedAreEntries(host, r, allow, kind, id, mode);
      if kind == Branch {
        var i :| 0 <= i < |r.repositories| && ItemClaim(host, r, r.repositories[i], Branch, id, mode);
        BranchEnds(r, r.repositories[i], id);
      }
    }
  }

  lemma BranchEnds(r: Record, item: Item, id: string)
    requires item.Item? && id in ItemBranches(r, item)
    ensures item.branchRef.Some? && (EndsInNewline(id) <==> EndsInNewline(item.branchRef.value))
  {
    hide ItemIdentities, StripWith;
    var branch := item.branchRef.value;
    var name :| name in ItemIdentities(r, item) && id == BranchIdentity(name, branch);
    if branch != "" {
      assert id[|id| - 1] == Fold(branch)[|branch| - 1] == FoldChar(branch[|branch| - 1]);
    }
  }

  lemma InfrastructureClaim(host: Host, r: Record, id: string, mode: Mode)
    requires Claims(host, r, Infrastructure, id, mode)
    ensures FromInfrastructure(r, id)
  {
  }

  // The family that fails: an infrastructure identity that reads like a
  // repository with the .git suffix is never a canonical entry.
  lemma GitSuffixIsNoEntry(host: Host, name: string)
    requires Lexical(host) && RepositoryName(name)
    ensures CanonicalEntry(host, name + ".git") == Some(name)
    ensures !Entry(host, name + ".git")
  {
    hide OwnerName, V2AbsoluteScope, Lexical, EndsWith, Find, Fold, StripWith, CanonicalRepoV2, BRANCH_MARKER, RepositoryScope;
    var s := name + ".git";
    NameChars(name);
    GitSuffixScope(name);
    NameIsNotPath(host, s);
    AlreadyFolded(s);
    FindIsFirst(s, BRANCH_MARKER);
    if Find(s, BRANCH_MARKER) >= 0 { MarkerStartsWithColon(s, Find(s, BRANCH_MARKER)); }
  }

  lemma GitSuffixScope(name: string)
    requires RepositoryName(name)
    ensures var s := name + ".git";
      && s[0] == name[0] && s[1] == name[1] && CountSlashes(s) == 1
      && (forall c <- s :: NameChar(c) || c == '/')
      && RepositoryScope(s) == Some(name)
  {
    hide OwnerName, Fold, StripWith, DropPrefix, IsSpace;
    var s := name + ".git";
    NameChars(name);
    CountConcat(name, ".git");
    NoSlashes(".git");
    AlreadyFolded(s);
    NameCharOf(s[0]);
    NameCharOf('t');
    StripFixed(s);
    SlashFixed(s);
    NoPrefix(s);
    assert s[..|s| - 4] == name && EndsWith(s, ".git");
  }
}
