// Native Git lock files held across a publication. Other processes may change
// the metadata tree between any two steps.
module GitGuard {
  import opened Commons

  // Below the metadata roots' common ancestor; the empty path always exists.
  type Path = seq<string>

  // A file that does not decode as text has no content.
  datatype Node = Directory | File(identity: nat, content: Option<string>) | Link(target: Path)

  type Tree = map<Path, Node>

  datatype Handle = Handle(path: Path, identity: nat, marker: string)

  // Links one lookup may pass through.
  const LINK_LIMIT := 40

  // What stat and read find under a path: the node its links lead to.
  function Follow(t: Tree, p: Path, hops: nat): Option<Node>
    decreases hops
  {
    if p == [] then Some(Directory)
    else if p !in t then None
    else if t[p].Link? then (if hops == 0 then None else Follow(t, t[p].target, hops - 1))
    else Some(t[p])
  }

  function Seen(t: Tree, p: Path): Option<Node> {
    Follow(t, p, LINK_LIMIT)
  }

  predicate Exists(t: Tree, p: Path) { Seen(t, p).Some? }

  predicate IsDirectory(t: Tree, p: Path) { p == [] || (p in t && t[p].Directory?) }

  function Parent(p: Path): Path
    requires p != []
  {
    p[..|p| - 1]
  }

  // Every node stands in a directory.
  predicate WellFormed(t: Tree) {
    [] !in t && forall p <- t :: IsDirectory(t, p[..|p| - 1])
  }

  predicate Below(d: Path, p: Path) { |d| < |p| && d <= p }

  ghost predicate Empty(t: Tree, d: Path) {
    forall p <- t :: !Below(d, p)
  }

  predicate Owned(node: Node, h: Handle) {
    node == File(h.identity, Some(h.marker))
  }

  // ---- Removals ----

  // What cleanup meets at one lock: the tree when it asks for the identity, when
  // it reads the content, and at the unlink.
  datatype Visit = Visit(handle: Handle, stated: Tree, read: Tree, at: Tree)

  // The guard's own identity and then its own marker, both seen through links.
  predicate Checked(v: Visit) {
    var stat, text := Seen(v.stated, v.handle.path), Seen(v.read, v.handle.path);
    && stat.Some? && stat.value.File? && stat.value.identity == v.handle.identity
    && text.Some? && text.value.File? && text.value.content == Some(v.handle.marker)
  }

  // What is read there does not decode.
  predicate NoText(v: Visit) {
    var text := Seen(v.read, v.handle.path);
    text.Some? && text.value.File? && text.value.content.None?
  }

  // The unlink takes whatever stands there by then, unless that is a directory.
  predicate Takes(v: Visit) {
    Checked(v) && v.handle.path in v.at && !v.at[v.handle.path].Directory?
  }

  function Unlinked(v: Visit): Tree {
    if Takes(v) then v.at - {v.handle.path} else v.at
  }

  datatype Removal = Lock(visit: Visit) | Made(path: Path, at: Tree)

  predicate Justified(r: Removal, handles: seq<Handle>, created: seq<Path>) {
    match r
    case Lock(v) => v.handle in handles && Takes(v)
    case Made(d, at) => d in created && d in at && at[d].Directory? && forall p <- at :: !Below(d, p)
  }

  // The locks that go, visit by visit.
  function Gone(visits: seq<Visit>): seq<Removal> {
    if visits == [] then []
    else
      var n := |visits| - 1;
      Gone(visits[..n]) + if Takes(visits[n]) then [Lock(visits[n])] else []
  }

  lemma {:induction false} GoneExactly(visits: seq<Visit>, r: Removal)
    ensures r in Gone(visits) <==> r.Lock? && r.visit in visits && Takes(r.visit)
  {
    if visits != [] {
      var n := |visits| - 1;
      GoneExactly(visits[..n], r);
      assert visits == visits[..n] + [visits[n]];
    }
  }

  lemma GoneMore(visits: seq<Visit>, v: Visit)
    ensures Gone(visits + [v]) == Gone(visits) + if Takes(v) then [Lock(v)] else []
  {
    assert (visits + [v])[..|visits|] == visits;
  }

  // The same entry at all three moments.
  predicate Calm(v: Visit) {
    && v.handle.path != []
    && v.handle.path in v.stated && v.handle.path in v.read && v.handle.path in v.at
    && v.stated[v.handle.path] == v.read[v.handle.path] == v.at[v.handle.path]
  }

  predicate Own(v: Visit) {
    v.handle.path in v.at && Owned(v.at[v.handle.path], v.handle)
  }

  predicate ThroughLink(v: Visit) {
    v.handle.path in v.at && v.at[v.handle.path].Link?
  }

  // Another file stands there than the one whose identity was seen.
  predicate Swapped(v: Visit) {
    v.handle.path in v.at && v.at[v.handle.path].File? && v.at[v.handle.path].identity != v.handle.identity
  }

  // The guard's file stands there with another content than the one that was read.
  predicate Rewritten(v: Visit) {
    && v.handle.path in v.at && v.at[v.handle.path].File? && v.at[v.handle.path].identity == v.handle.identity
    && v.at[v.handle.path].content != Some(v.handle.marker)
  }

  // What is taken though it is not the guard's own: after both checks, a link, a
  // file swapped in since the first, or the own file rewritten since the second.
  lemma ForeignIff(v: Visit)
    ensures Takes(v) && !Own(v) <==> Checked(v) && (ThroughLink(v) || Swapped(v) || Rewritten(v))
    ensures Checked(v) && Swapped(v) ==> Seen(v.stated, v.handle.path) != Seen(v.at, v.handle.path)
    ensures Checked(v) && Rewritten(v) ==> Seen(v.read, v.handle.path) != Seen(v.at, v.handle.path)
  {
  }

  // Whatever others do, over any number of locks: cleanup takes nothing but its
  // own exactly when no visit that passes both checks then meets one of the
  // three, and it takes all of its own exactly when every own lock passes them.
  lemma CleanupIsExact(visits: seq<Visit>)
    ensures (forall r <- Gone(visits) :: r.Lock? && Own(r.visit))
       <==> forall v <- visits :: Checked(v) ==> !ThroughLink(v) && !Swapped(v) && !Rewritten(v)
    ensures (forall v <- visits :: Own(v) ==> Lock(v) in Gone(visits))
       <==> forall v <- visits :: Own(v) ==> Checked(v)
  {
    hide Gone, Checked, Takes, Own, ThroughLink, Swapped, Rewritten;
    forall v <- visits
      ensures Takes(v) && !Own(v) <==> Checked(v) && (ThroughLink(v) || Swapped(v) || Rewritten(v))
      ensures Own(v) ==> (Takes(v) <==> Checked(v))
      ensures Lock(v) in Gone(visits) <==> Takes(v)
    {
      ForeignIff(v);
      OwnIsThere(v);
      GoneExactly(visits, Lock(v));
    }
    forall r <- Gone(visits) ensures r.Lock? && r.visit in visits && Takes(r.visit) {
      GoneExactly(visits, r);
    }
  }

  lemma OwnIsThere(v: Visit)
    ensures Own(v) ==> (Takes(v) <==> Checked(v))
  {
  }

  // Where nobody replaces an entry while it is checked and removed, every own
  // lock goes, and nothing else exactly when nothing that is taken is a link.
  lemma CalmCleanupIsExact(visits: seq<Visit>)
    requires forall v <- visits :: Calm(v)
    ensures forall v <- visits :: Own(v) ==> Lock(v) in Gone(visits)
    ensures (forall r <- Gone(visits) :: r.Lock? && Own(r.visit))
       <==> forall v <- visits :: Takes(v) ==> !ThroughLink(v)
  {
    hide Gone, Checked, Takes, Own, ThroughLink, Swapped, Rewritten, Calm;
    CleanupIsExact(visits);
    forall v <- visits
      ensures Own(v) ==> Checked(v)
      ensures Checked(v) ==> !Swapped(v) && !Rewritten(v)
      ensures Checked(v) && ThroughLink(v) <==> Takes(v) && ThroughLink(v)
    {
      CalmStays(v);
    }
  }

  lemma CalmStays(v: Visit)
    requires Calm(v)
    ensures Own(v) ==> Checked(v)
    ensures Checked(v) ==> !Swapped(v) && !Rewritten(v)
    ensures Checked(v) && ThroughLink(v) <==> Takes(v) && ThroughLink(v)
  {
  }

  // Others' entries do go: a link to the renamed lock put in its place before the
  // check, or another file put there after it.
  lemma ForeignFilesAreRemoved()
    ensures var h := Handle(["index.lock"], 7, "marker");
      var own: Tree := map[["index.lock"] := File(7, Some("marker"))];
      var linked: Tree := map[["mine"] := File(7, Some("marker")), ["index.lock"] := Link(["mine"])];
      var swapped: Tree := map[["index.lock"] := File(8, Some("another process"))];
      var early, late := Visit(h, linked, linked, linked), Visit(h, own, own, swapped);
      && Unlinked(early) == map[["mine"] := File(7, Some("marker"))] && Unlinked(late) == map[]
      && Gone([early, late]) == [Lock(early), Lock(late)] && Calm(early) && !Own(early) && !Own(late)
  {
    var path, mine := ["index.lock"], ["mine"];
    var h := Handle(path, 7, "marker");
    var own: Tree := map[path := File(7, Some("marker"))];
    var swapped: Tree := map[path := File(8, Some("another process"))];
    var linked: Tree := map[mine := File(7, Some("marker")), path := Link(mine)];
    var early, late := Visit(h, linked, linked, linked), Visit(h, own, own, swapped);
    assert path[0] != mine[0];
    assert Follow(linked, mine, LINK_LIMIT - 1) == Some(linked[mine]);
    assert linked - {path} == map[mine := File(7, Some("marker"))];
    GoneMore([], early);
    GoneMore([early], late);
    assert [] + [early] == [early] && [early] + [late] == [early, late];
  }

  // ---- The tree while the guard is held, when nobody interferes ----

  ghost predicate CreatedOk(base: Tree, tree: Tree, created: seq<Path>) {
    && (forall d <- created :: d in tree && tree[d].Directory? && d !in base)
    && forall i, j :: 0 <= i < j < |created| ==> created[i] != created[j] && !Below(created[j], created[i])
  }

  // Every lock file is whole, the last one excepted when its marker was cut short.
  ghost predicate HandlesOk(base: Tree, tree: Tree, handles: seq<Handle>, torn: bool) {
    && (torn ==> handles != [])
    && (forall i :: 0 <= i < |handles| ==>
          && handles[i].path in tree && handles[i].path !in base && tree[handles[i].path].File?
          && tree[handles[i].path].content.Some?
          && (Owned(tree[handles[i].path], handles[i]) <==> !(torn && i == |handles| - 1)))
    && forall i, j :: 0 <= i < j < |handles| ==> handles[i].path != handles[j].path
  }

  predicate HasPath(handles: seq<Handle>, p: Path) {
    exists h <- handles :: h.path == p
  }

  // The base, the directories and the lock files, and nothing else.
  ghost predicate Overlay(base: Tree, tree: Tree, created: seq<Path>, handles: seq<Handle>, torn: bool) {
    && WellFormed(base) && WellFormed(tree)
    && (forall p <- base :: p in tree && tree[p] == base[p])
    && (forall p <- tree :: p in base || p in created || HasPath(handles, p))
    && CreatedOk(base, tree, created) && HandlesOk(base, tree, handles, torn)
  }

  lemma {:induction false} AncestorExists(t: Tree, p: Path, n: nat)
    requires WellFormed(t) && p in t && 0 < n < |p|
    ensures p[..n] in t && t[p[..n]].Directory?
    decreases |p|
  {
    var parent := p[..|p| - 1];
    if n < |parent| {
      AncestorExists(t, parent, n);
      assert parent[..n] == p[..n];
    } else {
      assert parent == p[..n];
    }
  }

  lemma NothingBelow(t: Tree, d: Path, p: Path)
    requires WellFormed(t) && d != [] && d !in t && p in t
    ensures !Below(d, p)
  {
    if Below(d, p) {
      assert d == p[..|d|];
      AncestorExists(t, p, |d|);
    }
  }

  lemma GrowKeepsShape(t: Tree, p: Path, node: Node)
    requires WellFormed(t) && p != [] && p !in t && IsDirectory(t, Parent(p))
    ensures WellFormed(t[p := node])
  {
    var after := t[p := node];
    forall q <- after ensures IsDirectory(after, q[..|q| - 1]) {
      assert q in t || q == p;
    }
  }

  lemma ShrinkKeepsShape(t: Tree, p: Path)
    requires WellFormed(t) && p in t && (!t[p].Directory? || Empty(t, p))
    ensures WellFormed(t - {p})
  {
    var after := t - {p};
    forall q <- after ensures IsDirectory(after, q[..|q| - 1]) {
      assert q in t && (q[..|q| - 1] == p ==> p <= q);
    }
  }

  lemma CreateMore(base: Tree, tree: Tree, created: seq<Path>, d: Path)
    requires WellFormed(tree) && CreatedOk(base, tree, created) && d != [] && d !in tree && d !in base
    ensures CreatedOk(base, tree[d := Directory], created + [d])
  {
    var more := created + [d];
    forall i, j | 0 <= i < j < |more| ensures more[i] != more[j] && !Below(more[j], more[i]) {
      if j == |created| {
        assert more[i] == created[i] && created[i] in created;
        NothingBelow(tree, d, created[i]);
      }
    }
  }

  lemma AddDirectory(base: Tree, tree: Tree, created: seq<Path>, handles: seq<Handle>, d: Path)
    requires Overlay(base, tree, created, handles, false)
    requires d != [] && d !in tree && IsDirectory(tree, Parent(d))
    ensures Overlay(base, tree[d := Directory], created + [d], handles, false)
  {
    hide WellFormed, CreatedOk, HasPath;
    GrowKeepsShape(tree, d, Directory);
    CreateMore(base, tree, created, d);
    assert forall p :: p in tree[d := Directory] <==> p in tree || p == d;
  }

  lemma HandleMore(base: Tree, tree: Tree, handles: seq<Handle>, h: Handle, content: string)
    requires HandlesOk(base, tree, handles, false) && h.path !in tree && h.path !in base
    ensures HandlesOk(base, tree[h.path := File(h.identity, Some(content))], handles + [h], content != h.marker)
  {
  }

  lemma AddLock(base: Tree, tree: Tree, created: seq<Path>, handles: seq<Handle>, h: Handle, content: string)
    requires Overlay(base, tree, created, handles, false)
    requires h.path != [] && h.path !in tree && IsDirectory(tree, Parent(h.path))
    ensures Overlay(base, tree[h.path := File(h.identity, Some(content))], created, handles + [h], content != h.marker)
  {
    hide WellFormed, HandlesOk;
    var after, more := tree[h.path := File(h.identity, Some(content))], handles + [h];
    GrowKeepsShape(tree, h.path, File(h.identity, Some(content)));
    HandleMore(base, tree, handles, h, content);
    assert forall x :: x in more <==> x in handles || x == h;
    forall p <- after ensures p in base || p in created || HasPath(more, p) {
      if p != h.path { assert p in tree; }
    }
  }

  lemma RemoveLock(base: Tree, tree: Tree, created: seq<Path>, handles: seq<Handle>, h: Handle)
    requires Overlay(base, tree, created, handles + [h], false)
    ensures h.path in tree && Owned(tree[h.path], h)
    ensures Overlay(base, tree - {h.path}, created, handles, false)
  {
    var all, after := handles + [h], tree - {h.path};
    assert all[|handles|] == h;
    assert forall i :: 0 <= i < |handles| ==> all[i] == handles[i];
    ShrinkKeepsShape(tree, h.path);
    forall p <- after ensures p in base || p in created || HasPath(handles, p) {
      if HasPath(all, p) {
        var x :| x in all && x.path == p;
        assert x in handles;
      }
    }
  }

  lemma LastIsEmpty(base: Tree, tree: Tree, created: seq<Path>, d: Path)
    requires Overlay(base, tree, created + [d], [], false)
    ensures d in tree && tree[d].Directory? && d !in base && Empty(tree, d)
  {
    var all := created + [d];
    assert d in all && all[|created|] == d;
    forall p <- tree ensures !Below(d, p) {
      if p in base {
        assert d != [];
        NothingBelow(base, d, p);
      } else {
        assert !HasPath([], p);
        var i :| 0 <= i < |all| && all[i] == p;
      }
    }
  }

  lemma RemoveDirectory(base: Tree, tree: Tree, created: seq<Path>, d: Path)
    requires Overlay(base, tree, created + [d], [], false)
    ensures Overlay(base, tree - {d}, created, [], false)
  {
    hide WellFormed;
    LastIsEmpty(base, tree, created, d);
    ShrinkKeepsShape(tree, d);
    var all, after := created + [d], tree - {d};
    assert forall i :: 0 <= i < |created| ==> all[i] == created[i];
    forall p <- after ensures p in base || p in created || HasPath([], p) {
      assert p in tree && !HasPath([], p);
    }
    CreatedLess(base, tree, created, d);
  }

  lemma CreatedLess(base: Tree, tree: Tree, created: seq<Path>, d: Path)
    requires CreatedOk(base, tree, created + [d])
    ensures CreatedOk(base, tree - {d}, created)
  {
    var all := created + [d];
    assert forall i :: 0 <= i < |created| ==> all[i] == created[i];
    forall x <- created ensures x in all && x != d {
      var i :| 0 <= i < |created| && created[i] == x;
      assert all[i] != all[|created|];
    }
  }

  ghost predicate OwnOnly(removed: seq<Removal>, handles: seq<Handle>, created: seq<Path>) {
    forall r <- removed :: Justified(r, handles, created)
  }

  lemma OneMore(removed: seq<Removal>, handles: seq<Handle>, created: seq<Path>, r: Removal)
    requires OwnOnly(removed, handles, created) && Justified(r, handles, created)
    ensures OwnOnly(removed + [r], handles, created)
  {
  }

  lemma OwnedIsChecked(t: Tree, h: Handle)
    requires WellFormed(t) && h.path in t && Owned(t[h.path], h)
    ensures Takes(Visit(h, t, t, t)) && !NoText(Visit(h, t, t, t))
  {
  }

  lemma NotOwnedStays(t: Tree, h: Handle)
    requires WellFormed(t) && h.path in t && t[h.path].File? && !Owned(t[h.path], h)
    ensures !Takes(Visit(h, t, t, t))
  {
  }

  // A lock whose marker was cut short is not recognised as the guard's own.
  lemma TornLockStays(base: Tree, tree: Tree, created: seq<Path>, handles: seq<Handle>)
    requires Overlay(base, tree, created, handles, true)
    ensures handles != []
    ensures var h := handles[|handles| - 1];
      && h.path in tree && h.path !in base && tree[h.path].File? && !Owned(tree[h.path], h)
      && forall i :: 0 <= i < |handles| - 1 ==> handles[i].path != h.path
  {
  }

  // ---- The guard ----

  // hostile: others act between steps. failing: removals may fail.
  class Guard {
    const hostile: bool
    const failing: bool
    ghost const base: Tree
    var tree: Tree
    var nextIdentity: nat
    var handles: seq<Handle>
    var created: seq<Path>
    // Every removal the guard made, with what it had seen.
    ghost var removed: seq<Removal>
    // What cleanup met, lock by lock.
    ghost var visits: seq<Visit>
    // A marker was not completely written.
    ghost var torn: bool

    ghost predicate Valid()
      reads this
    {
      WellFormed(tree) && (!hostile ==> Overlay(base, tree, created, handles, torn))
    }

    constructor (tree: Tree, hostile: bool, failing: bool)
      requires WellFormed(tree)
      ensures Valid() && this.tree == tree == base && this.hostile == hostile && this.failing == failing
      ensures handles == [] && created == [] && removed == [] && visits == [] && !torn
    {
      this.tree, this.base, this.hostile, this.failing := tree, tree, hostile, failing;
      nextIdentity, handles, created, removed, visits, torn := 0, [], [], [], [], false;
    }

    // Whatever others do in between; the file system itself stays a tree.
    method Interfere()
      requires WellFormed(tree)
      modifies this`tree
      ensures WellFormed(tree) && (!hostile ==> tree == old(tree))
    {
      if hostile {
        var other: Tree := *;
        if WellFormed(other) { tree := other; }
      }
    }

    // The parents of a path that do not exist, nearest first.
    method MissingParents(path: Path) returns (missing: seq<Path>)
      requires path != []
      ensures |missing| < |path|
      ensures forall i :: 0 <= i < |missing| ==> missing[i] == path[..|path| - 1 - i] && !Exists(tree, missing[i])
      ensures Exists(tree, path[..|path| - 1 - |missing|])
    {
      missing := [];
      var parent := Parent(path);
      while !Exists(tree, parent)
        invariant |missing| < |path| && parent == path[..|path| - 1 - |missing|]
        invariant forall i :: 0 <= i < |missing| ==> missing[i] == path[..|path| - 1 - i] && !Exists(tree, missing[i])
        decreases |parent|
      {
        missing := missing + [parent];
        parent := Parent(parent);
      }
    }

    method MakeDirectory(d: Path) returns (ok: bool)
      requires Valid() && d != [] && !torn
      modifies this`tree, this`created
      ensures Valid()
      ensures ok && !hostile ==> Seen(tree, d) == Some(Directory)
      ensures forall p :: p in created ==> p in old(created) || p == d
    {
      hide Overlay, WellFormed;
      Interfere();
      ok := Attempt();
      if !ok || !IsDirectory(tree, Parent(d)) { return false; }
      if d in tree {
        ok := Seen(tree, d) == Some(Directory);
      } else {
        if !hostile { AddDirectory(base, tree, created, handles, d); }
        GrowKeepsShape(tree, d, Directory);
        tree, created := tree[d := Directory], created + [d];
      }
    }

    method EnsureParents(path: Path) returns (ok: bool)
      requires Valid() && path != [] && !torn
      modifies this`tree, this`created
      ensures Valid()
    {
      var missing := MissingParents(path);
      ok := IsDirectory(tree, path[..|path| - 1 - |missing|]);
      var n := |missing|;
      while ok && n > 0
        invariant 0 <= n <= |missing| && Valid()
      {
        n := n - 1;
        ok := MakeDirectory(missing[n]);
      }
    }

    // Exclusive creation, then the marker through the open handle.
    method Lock(path: Path, marker: string) returns (ok: bool)
      requires Valid() && path != [] && marker != "" && !torn
      modifies this`tree, this`created, this`handles, this`nextIdentity, this`torn
      ensures Valid()
      ensures ok ==> !torn && |handles| == |old(handles)| + 1 && old(handles) <= handles
      ensures ok ==> handles[|handles| - 1].path == path && handles[|handles| - 1].marker == marker
    {
      hide Overlay, WellFormed;
      ok := EnsureParents(path);
      if !ok { return; }
      Interfere();
      ok := Attempt();
      if !ok || path in tree || !IsDirectory(tree, Parent(path)) { return false; }
      var h := Handle(path, nextIdentity, marker);
      // The write, the flush and the sync of the marker may each fail.
      var whole := Attempt();
      var cut: nat := *;
      var content := if whole then marker else marker[..cut % |marker|];
      if !hostile { AddLock(base, tree, created, handles, h, content); }
      GrowKeepsShape(tree, path, File(h.identity, Some(content)));
      tree := tree[path := File(h.identity, Some(content))];
      handles, nextIdentity, torn := handles + [h], nextIdentity + 1, !whole;
      ok := Attempt();
      ok := ok && whole;
    }

    // One whole lock for each path, in order.
    predicate Holds(paths: seq<Path>, marker: string)
      reads this
    {
      |handles| == |paths| && forall i :: 0 <= i < |paths| ==> handles[i].path == paths[i] && handles[i].marker == marker
    }

    method Acquire(paths: seq<Path>, marker: string) returns (ok: bool)
      requires Valid() && marker != "" && !torn && forall p <- paths :: p != []
      requires handles == []
      modifies this`tree, this`created, this`handles, this`nextIdentity, this`torn
      ensures Valid() && (ok ==> !torn && Holds(paths, marker))
    {
      hide Overlay, WellFormed;
      ok := true;
      var n := 0;
      while ok && n < |paths|
        invariant 0 <= n <= |paths| && Valid() && (ok ==> !torn && |handles| == n && Holds(paths[..n], marker))
      {
        assert paths[n] in paths;
        ghost var before := handles;
        ok := Lock(paths[n], marker);
        n := n + 1;
        if ok {
          assert forall i :: 0 <= i < n - 1 ==> handles[i] == before[i];
        }
      }
      assert paths[..|paths|] == paths;
    }

    ghost predicate RemovedOwn()
      reads this
    {
      OwnOnly(removed, handles, created)
    }

    // A content that is no text stops the whole cleanup.
    method RemoveFile(h: Handle) returns (fatal: bool, ghost v: Visit)
      requires WellFormed(tree) && RemovedOwn() && h in handles
      modifies this`tree, this`removed
      ensures WellFormed(tree) && RemovedOwn() && v.handle == h
      ensures tree == v.at || tree == Unlinked(v)
      ensures !failing ==> tree == Unlinked(v)
      ensures removed == old(removed) + if tree == v.at then [] else [Removal.Lock(v)]
      ensures !failing ==> removed == old(removed) + if Takes(v) then [Removal.Lock(v)] else []
      ensures !hostile ==> v.stated == v.read == v.at == old(tree)
      ensures fatal ==> NoText(v)
    {
      hide OwnOnly, WellFormed, Follow;
      Interfere();
      fatal, v := false, Visit(h, tree, tree, tree);
      var works := Attempt();
      if failing && !works { return; }
      var stat := Seen(tree, h.path);
      if stat.None? || !stat.value.File? || stat.value.identity != h.identity { return; }
      Interfere();
      v := v.(read := tree, at := tree);
      works := Attempt();
      if failing && !works { return; }
      var text := Seen(tree, h.path);
      if text.None? || !text.value.File? { return; }
      if text.value.content.None? { return true, v; }
      if text.value.content.value != h.marker { return; }
      Interfere();
      v := v.(at := tree);
      works := Attempt();
      if (failing && !works) || h.path !in tree || tree[h.path].Directory? { return; }
      OneMore(removed, handles, created, Removal.Lock(v));
      removed := removed + [Removal.Lock(v)];
      ShrinkKeepsShape(tree, h.path);
      tree := tree - {h.path};
    }

    method RemoveEmpty(d: Path)
      requires WellFormed(tree) && RemovedOwn() && d in created
      modifies this`tree, this`removed
      ensures WellFormed(tree) && RemovedOwn()
      ensures removed == old(removed) || (|removed| == |old(removed)| + 1 && old(removed) <= removed
                                          && removed[|old(removed)|].Made?)
      ensures !hostile ==> tree == old(tree) || tree == old(tree) - {d}
      ensures forall p <- old(tree) :: !hostile && p !in tree ==> old(tree)[p].Directory?
      ensures !hostile && !failing && d in old(tree) && old(tree)[d].Directory? && Empty(old(tree), d) ==>
        tree == old(tree) - {d}
    {
      hide OwnOnly, WellFormed;
      Interfere();
      var works := Attempt();
      if failing && !works { return; }
      if d !in tree || !tree[d].Directory? || exists p <- tree :: Below(d, p) { return; }
      OneMore(removed, handles, created, Made(d, tree));
      removed := removed + [Made(d, tree)];
      ShrinkKeepsShape(tree, d);
      tree := tree - {d};
    }

    // The locks are visited newest first, all of them unless a content is no text.
    ghost predicate InTurn()
      reads this
    {
      && |visits| <= |handles|
      && (forall k :: 0 <= k < |visits| ==> visits[k].handle == handles[|handles| - 1 - k])
      && (|visits| < |handles| ==> visits != [] && NoText(visits[|visits| - 1]))
    }

    // Exactly the locks their visits take are removed, then directories only.
    ghost predicate Settled()
      reads this
    {
      Gone(visits) <= removed && forall k :: |Gone(visits)| <= k < |removed| ==> removed[k].Made?
    }

    // With n locks left, when nobody interferes: the tree is still the base, the
    // own directories and those locks, or a lock cut short stands for good.
    ghost predicate LeftAlone(n: nat, last: Path)
      reads this
      requires n <= |handles|
    {
      && (!failing && !torn ==> Overlay(base, tree, created, handles[..n], false))
      && (torn ==>
            && handles != [] && last == handles[|handles| - 1].path
            && last in tree && last !in base && tree[last].File?
            && (n == |handles| ==> !Owned(tree[last], handles[n - 1]))
            && forall k :: 0 <= k < |handles| - 1 ==> handles[k].path != last)
    }

    method VisitLock(n: nat, ghost last: Path) returns (fatal: bool)
      requires n < |handles| && WellFormed(tree) && RemovedOwn() && (!hostile ==> LeftAlone(n + 1, last))
      modifies this`tree, this`removed, this`visits
      ensures WellFormed(tree) && RemovedOwn() && (!hostile ==> LeftAlone(n, last))
      ensures |visits| == |old(visits)| + 1 && old(visits) <= visits && visits[|old(visits)|].handle == handles[n]
      ensures !failing && old(removed) == Gone(old(visits)) ==> removed == Gone(visits)
      ensures fatal ==> NoText(visits[|old(visits)|]) && (hostile || failing || torn)
    {
      hide OwnOnly, WellFormed, Overlay, Follow, Takes, Checked, Gone, Owned, NoText;
      assert handles[..n + 1] == handles[..n] + [handles[n]];
      if !hostile && !failing && !torn {
        RemoveLock(base, tree, created, handles[..n], handles[n]);
        OwnedIsChecked(tree, handles[n]);
      }
      if !hostile && torn && n == |handles| - 1 { NotOwnedStays(tree, handles[n]); }
      ghost var v;
      fatal, v := RemoveFile(handles[n]);
      GoneMore(visits, v);
      visits := visits + [v];
    }

    // Newest first.
    method VisitLocks(ghost last: Path) returns (fatal: bool)
      requires WellFormed(tree) && RemovedOwn() && (!hostile ==> LeftAlone(|handles|, last))
      requires removed == [] && visits == []
      modifies this`tree, this`removed, this`visits
      ensures WellFormed(tree) && RemovedOwn() && InTurn() && (!failing ==> removed == Gone(visits))
      ensures fatal ==> hostile || failing || torn
      ensures !hostile ==> exists n :: 0 <= n <= |handles| && (!fatal ==> n == 0) && LeftAlone(n, last)
    {
      assert Gone([]) == [];
      hide OwnOnly, WellFormed, LeftAlone, Gone, NoText;
      var n := |handles|;
      fatal := false;
      while n > 0 && !fatal
        invariant 0 <= n <= |handles| && WellFormed(tree) && RemovedOwn() && (!hostile ==> LeftAlone(n, last))
        invariant |visits| == |handles| - n
        invariant forall k :: 0 <= k < |visits| ==> visits[k].handle == handles[|handles| - 1 - k]
        invariant fatal ==> visits != [] && NoText(visits[|visits| - 1]) && (hostile || failing || torn)
        invariant !failing ==> removed == Gone(visits)
      {
        n := n - 1;
        fatal := VisitLock(n, last);
      }
    }

    // Locks first, then directories, newest first.
    method Cleanup()
      requires Valid() && RemovedOwn() && removed == [] && visits == []
      modifies this`tree, this`removed, this`visits
      ensures WellFormed(tree) && RemovedOwn() && InTurn()
      ensures !failing ==> Settled()
      ensures !hostile && !failing ==> (tree == base <==> !torn)
    {
      hide OwnOnly, WellFormed, Overlay, Gone, Owned, NoText;
      assert handles[..|handles|] == handles;
      if torn && !hostile { TornLockStays(base, tree, created, handles); }
      ghost var last := if torn && !hostile then handles[|handles| - 1].path else [];
      var fatal := VisitLocks(last);
      if fatal { return; }
      assert handles[..0] == [];
      RemoveDirectories(last);
    }

    method RemoveDirectories(ghost last: Path)
      requires WellFormed(tree) && RemovedOwn()
      requires !hostile && !failing && !torn ==> Overlay(base, tree, created, [], false)
      requires !hostile && torn ==> last in tree && last !in base && tree[last].File?
      modifies this`tree, this`removed
      ensures WellFormed(tree) && RemovedOwn() && old(removed) <= removed
      ensures forall k :: |old(removed)| <= k < |removed| ==> removed[k].Made?
      ensures !hostile && !failing ==> (tree == base <==> !torn)
    {
      hide OwnOnly, WellFormed, Overlay;
      var n := |created|;
      assert created[..n] == created;
      while n > 0
        invariant 0 <= n <= |created| && WellFormed(tree) && RemovedOwn() && old(removed) <= removed
        invariant forall k :: |old(removed)| <= k < |removed| ==> removed[k].Made?
        invariant !hostile && !failing && !torn ==> Overlay(base, tree, created[..n], [], false)
        invariant !hostile && torn ==> last in tree && last !in base && tree[last].File?
      {
        n := n - 1;
        assert created[..n + 1] == created[..n] + [created[n]];
        if !hostile && !failing && !torn {
          LastIsEmpty(base, tree, created[..n], created[n]);
          RemoveDirectory(base, tree, created[..n], created[n]);
        }
        RemoveEmpty(created[n]);
      }
      if !hostile && !failing && !torn {
        BareOverlay(base, tree);
      }
    }

    // The whole context manager around a body that may fail. Left alone, it
    // restores the metadata tree exactly unless a marker was cut short.
    method Hold(paths: seq<Path>, marker: string) returns (ok: bool)
      requires Valid() && handles == [] && created == [] && removed == [] && visits == [] && !torn
      requires marker != "" && forall p <- paths :: p != []
      modifies this
      ensures RemovedOwn() && InTurn() && (!failing ==> Settled())
      ensures !hostile && !failing ==> (tree == base <==> !torn)
      ensures ok ==> !torn && Holds(paths, marker)
    {
      ok := Acquire(paths, marker);
      if ok {
        Interfere();
        ok := Attempt();
      }
      Cleanup();
    }
  }

  lemma BareOverlay(base: Tree, tree: Tree)
    requires Overlay(base, tree, [], [], false)
    ensures tree == base
  {
    forall p <- tree ensures p in base {
      assert !HasPath([], p);
    }
  }
}
