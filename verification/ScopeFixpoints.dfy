// Decision-scope entries are canonical: canonicalising one again changes
// nothing, and every repository, branch and path a valid v2 lease reserves is
// already written that way.
module ScopeFixpoints {
  import opened Commons
  import opened Text
  import opened Records
  import opened Grammar
  import opened Repositories
  import opened Scopes

  // ---- Case folding and the lexical operations ----

  predicate CaseBlind(drop: char -> bool) {
    forall c: char :: drop(FoldChar(c)) == drop(c)
  }

  lemma {:induction false} FoldSlice(s: string, i: nat, j: nat)
    requires i <= j <= |s|
    ensures Fold(s[i..j]) == Fold(s)[i..j]
  {
  }

  lemma {:induction false} StripLeftFold(s: string, drop: char -> bool)
    requires CaseBlind(drop)
    ensures StripLeft(Fold(s), drop) == Fold(StripLeft(s, drop))
  {
    if s != "" {
      assert Fold(s)[1..] == Fold(s[1..]);
      StripLeftFold(s[1..], drop);
    }
  }

  lemma {:induction false} StripRightFold(s: string, drop: char -> bool)
    requires CaseBlind(drop)
    ensures StripRight(Fold(s), drop) == Fold(StripRight(s, drop))
  {
    if s != "" {
      FoldSlice(s, 0, |s| - 1);
      StripRightFold(s[..|s| - 1], drop);
    }
  }

  lemma StripWithFold(s: string, drop: char -> bool)
    requires CaseBlind(drop)
    ensures StripWith(Fold(s), drop) == Fold(StripWith(s, drop))
  {
    StripLeftFold(s, drop);
    StripRightFold(StripLeft(s, drop), drop);
  }

  predicate FoldedParts(a: seq<string>, b: seq<string>) {
    |a| == |b| && forall i :: 0 <= i < |b| ==> a[i] == Fold(b[i])
  }

  lemma {:induction false} SplitFold(s: string)
    ensures FoldedParts(Split(Fold(s)), Split(s))
  {
    if s != "" {
      var f := Fold(s);
      assert f[1..] == Fold(s[1..]);
      SplitFold(s[1..]);
      SplitFoldStep(s[0], Split(Fold(s[1..])), Split(s[1..]));
    }
  }

  lemma SplitFoldStep(c: char, a: seq<string>, b: seq<string>)
    requires FoldedParts(a, b) && |b| >= 1
    ensures FoldedParts([""] + a, [""] + b)
    ensures FoldedParts([[FoldChar(c)] + a[0]] + a[1..], [[c] + b[0]] + b[1..])
  {
    var t := [c] + b[0];
    assert t[1..] == b[0];
    assert Fold(t) == [FoldChar(c)] + Fold(b[0]);
  }

  lemma {:induction false} BeforeDotFold(s: string)
    ensures BeforeDot(Fold(s)) == Fold(BeforeDot(s))
  {
    if s != "" {
      assert Fold(s)[1..] == Fold(s[1..]);
      BeforeDotFold(s[1..]);
      if s[0] != '.' {
        var tail := BeforeDot(s[1..]);
        assert ([s[0]] + tail)[1..] == tail;
      }
    }
  }

  lemma PlainCharFold(c: char)
    ensures PlainChar(FoldChar(c)) == PlainChar(c)
  {
  }

  lemma AllPlainFold(c: string)
    ensures (forall x <- Fold(c) :: PlainChar(x)) <==> (forall x <- c :: PlainChar(x))
  {
    hide PlainChar, FoldChar, Fold;
    forall i | 0 <= i < |c| ensures PlainChar(Fold(c)[i]) == PlainChar(c[i]) {
      PlainCharFold(c[i]);
    }
  }

  lemma SafeComponentFold(c: string)
    ensures SafeComponent(Fold(c)) == SafeComponent(c)
  {
    hide PlainChar, RESERVED_NAMES, Fold, BeforeDot;
    var f := Fold(c);
    BeforeDotFold(c);
    FoldIdempotent(BeforeDot(c));
    assert Reserved(f) == Reserved(c);
    AllPlainFold(c);
    assert f == "." <==> c == ".";
    assert f == ".." <==> c == "..";
  }

  lemma SafeComponentsFold(s: string)
    ensures SafeComponents(Split(Fold(s))) == SafeComponents(Split(s))
  {
    var a, b := Split(Fold(s)), Split(s);
    SplitFold(s);
    forall i | 0 <= i < |b| ensures SafeComponent(a[i]) == SafeComponent(b[i]) {
      SafeComponentFold(b[i]);
    }
    assert SafeComponents(a) == forall i :: 0 <= i < |a| ==> SafeComponent(a[i]);
    assert SafeComponents(b) == forall i :: 0 <= i < |b| ==> SafeComponent(b[i]);
  }

  // ---- Paths ----

  lemma StripFixed(s: string)
    ensures Strip(s) == s <==> s == "" || (!IsSpace(s[0]) && !IsSpace(s[|s| - 1]))
  {
    StripLeftShrinks(s, IsSpace);
    StripRightShrinks(StripLeft(s, IsSpace), IsSpace);
    StripRightShrinks(s, IsSpace);
  }

  lemma {:induction false} StripLeftShrinks(s: string, drop: char -> bool)
    ensures StripLeft(s, drop) == s || |StripLeft(s, drop)| < |s|
    ensures s != "" && drop(s[0]) ==> |StripLeft(s, drop)| < |s|
  {
    if s != "" && drop(s[0]) { StripLeftShrinks(s[1..], drop); }
  }

  lemma {:induction false} StripRightShrinks(s: string, drop: char -> bool)
    ensures StripRight(s, drop) == s || |StripRight(s, drop)| < |s|
    ensures s != "" && drop(s[|s| - 1]) ==> |StripRight(s, drop)| < |s|
  {
    if s != "" && drop(s[|s| - 1]) { StripRightShrinks(s[..|s| - 1], drop); }
  }

  lemma ForwardFold(s: string)
    ensures ForwardSlashes(Fold(s)) == Fold(ForwardSlashes(s))
  {
  }

  lemma DriveFold(s: string)
    ensures DrivePath(Fold(s)) == DrivePath(s)
  {
  }

  // The v2 path grammar does not look at case.
  lemma V2AbsoluteFold(s: string)
    ensures V2AbsoluteScope(Fold(s)) == V2AbsoluteScope(s)
  {
    hide SafeComponents, FoldChar;
    var f := Fold(s);
    FoldKeepsMarks(s);
    if DrivePath(s) || (s != "" && s[0] == '/') {
      SuffixFold(s);
      SafeComponentsFold(RootedSuffix(s));
    }
  }

  // What the grammar does look at.
  lemma FoldKeepsMarks(s: string)
    ensures DrivePath(Fold(s)) == DrivePath(s) && (Strip(Fold(s)) == Fold(s) <==> Strip(s) == s)
    ensures (Fold(s) != "" && Fold(s)[0] == '/') <==> (s != "" && s[0] == '/')
    ensures '\\' in Fold(s) <==> '\\' in s
    ensures ("\\\\" <= Fold(s) <==> "\\\\" <= s) && ("//" <= Fold(s) <==> "//" <= s)
  {
    hide Fold, StripWith, DrivePath;
    StripFixed(s);
    StripFixed(Fold(s));
    DriveFold(s);
    MarkFold(s, '\\');
    PairFold(s, "\\\\");
    PairFold(s, "//");
  }

  lemma PairFold(s: string, p: string)
    requires |p| == 2 && !IsLetter(p[0]) && !IsLetter(p[1])
    ensures p <= Fold(s) <==> p <= s
  {
  }

  lemma MarkFold(s: string, c: char)
    requires !IsLetter(c)
    ensures c in Fold(s) <==> c in s
  {
    var f := Fold(s);
    if c in f {
      var i :| 0 <= i < |f| && f[i] == c;
      assert s[i] == c;
    }
    if c in s {
      var i :| 0 <= i < |s| && s[i] == c;
      assert f[i] == c;
    }
  }

  lemma SuffixFold(s: string)
    requires DrivePath(s) || (s != "" && s[0] == '/')
    ensures DrivePath(Fold(s)) || (Fold(s) != "" && Fold(s)[0] == '/')
    ensures RootedSuffix(Fold(s)) == Fold(RootedSuffix(s))
  {
    DriveFold(s);
    ForwardFold(s);
    if DrivePath(s) {
      FoldSlice(ForwardSlashes(s), 3, |s|);
    } else {
      FoldSlice(s, 1, |s|);
    }
  }

  // canonical_scope on a v2 absolute path, without symbolic links.
  function LexicalScope(s: string, posix: bool): string {
    if DrivePath(s) then Fold(ForwardSlashes(s)) else if posix then s else Fold(s)
  }

  lemma ForwardedIsV2(s: string)
    requires V2AbsoluteScope(s) && DrivePath(s)
    ensures V2AbsoluteScope(ForwardSlashes(s)) && DrivePath(ForwardSlashes(s))
    ensures ForwardSlashes(ForwardSlashes(s)) == ForwardSlashes(s)
  {
    hide SafeComponents, Split, StripWith, IsSpace;
    ForwardTwice(s);
    ForwardKeepsEnds(s);
  }

  lemma ForwardKeepsEnds(s: string)
    requires Strip(s) == s
    ensures Strip(ForwardSlashes(s)) == ForwardSlashes(s)
  {
    hide StripWith, IsSpace;
    SlashesAreNoSpace();
    StripFixed(s);
    StripFixed(ForwardSlashes(s));
  }

  lemma SlashesAreNoSpace()
    ensures !IsSpace('/') && !IsSpace('\\')
  {
  }

  lemma ForwardTwice(s: string)
    ensures ForwardSlashes(ForwardSlashes(s)) == ForwardSlashes(s)
  {
  }

  lemma LexicalScopeFixpoint(s: string, posix: bool)
    requires V2AbsoluteScope(s)
    ensures V2AbsoluteScope(LexicalScope(s, posix))
    ensures LexicalScope(LexicalScope(s, posix), posix) == LexicalScope(s, posix)
  {
    FoldIdempotent(s);
    DriveFold(s);
    V2AbsoluteFold(s);
    if DrivePath(s) {
      var u := ForwardSlashes(s);
      ForwardedIsV2(s);
      V2AbsoluteFold(u);
      DriveFold(u);
      ForwardFold(u);
      FoldIdempotent(u);
    }
  }

  // ---- Repositories ----

  lemma {:induction false} DropPrefixFold(value: string, prefixes: seq<string>)
    ensures DropPrefix(Fold(value), Fold(Fold(value)), prefixes) == Fold(DropPrefix(value, Fold(value), prefixes))
  {
    FoldIdempotent(value);
    if prefixes != [] {
      if prefixes[0] <= Fold(value) {
        FoldSlice(value, |prefixes[0]|, |value|);
      } else {
        DropPrefixFold(value, prefixes[1..]);
      }
    }
  }

  // The repository path before its suffix is dropped.
  function RepoPath(value: string): string {
    var bare := Strip(value);
    StripSlashes(DropPrefix(bare, Fold(bare), REMOTE_PREFIXES))
  }

  function DropGit(path: string): string {
    Fold(if EndsWith(Fold(path), ".git") then path[..|path| - 4] else path)
  }

  lemma RepoPathFold(value: string)
    ensures RepoPath(Fold(value)) == Fold(RepoPath(value))
  {
    hide DropPrefix, StripWith;
    StripWithFold(value, IsSpace);
    var bare := Strip(value);
    DropPrefixFold(bare, REMOTE_PREFIXES);
    StripWithFold(DropPrefix(bare, Fold(bare), REMOTE_PREFIXES), IsSlash);
  }

  lemma DropGitFold(path: string)
    ensures DropGit(Fold(path)) == DropGit(path)
  {
    FoldIdempotent(path);
    if EndsWith(Fold(path), ".git") {
      FoldSlice(path, 0, |path| - 4);
      FoldIdempotent(path[..|path| - 4]);
    }
  }

  // The v2 repository identity does not look at case.
  lemma RepoFold(value: string)
    ensures CanonicalRepoV2(Fold(value)) == CanonicalRepoV2(value)
  {
    hide FoldChar, DropPrefix, StripWith, EndsWith;
    RepoPathFold(value);
    DropGitFold(RepoPath(value));
    assert CanonicalRepoV2(value) == DropGit(RepoPath(value));
    assert CanonicalRepoV2(Fold(value)) == DropGit(RepoPath(Fold(value)));
  }

  // ---- Entries ----

  // canonical_scope and the overlap identities of a native v2 path are lexical.
  ghost predicate LexicalPaths(host: Host) {
    && (forall s :: V2AbsoluteScope(s) ==> host.canonicalScope(s) == LexicalScope(s, host.posix))
    && (forall s :: NativeAbsoluteScope(s, host.posix) ==> host.pathIdentities(s, true) == {host.canonicalScope(s)})
  }

  // Absoluteness does not look at case or surrounding blanks, and a text that
  // starts with a name character is absolute only behind a drive colon.
  ghost predicate LexicalAbsolute(host: Host) {
    && (forall s :: host.isAbsolute(Fold(s)) == host.isAbsolute(s))
    && (forall s :: host.isAbsolute(Strip(s)) == host.isAbsolute(s))
    && (forall s :: host.isAbsolute(s) && s != "" && NameStart(s[0]) ==> |s| >= 2 && s[1] == ':')
  }

  // A host whose path answers are purely lexical.
  ghost predicate Lexical(host: Host) {
    LexicalPaths(host) && LexicalAbsolute(host)
  }

  // Lower-case owner/name that does not end in .git.
  predicate RepositoryName(s: string) {
    OwnerName(s) && !EndsWith(s, ".git")
  }

  lemma NameChars(s: string)
    requires OwnerName(s)
    ensures |s| >= 3 && NameStart(s[0]) && NameChar(s[|s| - 1]) && s[1] != ':'
    ensures forall c <- s :: NameChar(c) || c == '/'
    ensures CountSlashes(s) == 1 && Fold(s) == s && ':' !in s && '\\' !in s
  {
    var k := Find(s, "/");
    FindIsFirst(s, "/");
    var owner, name := s[..k], s[k + 1..];
    assert s[k..][0] == '/';
    assert s == owner + "/" + name;
    OwnerAndName(owner, name);
    AlreadyFolded(s);
  }

  lemma AlreadyFolded(s: string)
    requires forall c <- s :: NameChar(c) || c == '/'
    ensures Fold(s) == s && ':' !in s && '\\' !in s
  {
    forall i | 0 <= i < |s| ensures FoldChar(s[i]) == s[i] {
      assert s[i] in s;
    }
  }

  lemma OwnerAndName(owner: string, name: string)
    requires CanonicalName(owner) && CanonicalName(name)
    ensures var s := owner + "/" + name;
      && |s| >= 3 && NameStart(s[0]) && NameChar(s[|s| - 1]) && s[1] != ':'
      && (forall c <- s :: NameChar(c) || c == '/') && CountSlashes(s) == 1
  {
    var s := owner + "/" + name;
    assert s[|s| - 1] == name[|name| - 1] && name[|name| - 1] in name;
    assert |owner| > 1 ==> owner[1] in owner && s[1] == owner[1];
    assert s == owner + ("/" + name);
    CountConcat(owner, "/" + name);
    CountConcat("/", name);
    assert CountSlashes("/") == 1 by { assert "/"[1..] == ""; }
    NoSlashes(owner);
    NoSlashes(name);
  }

  lemma {:induction false} CountConcat(a: string, b: string)
    ensures CountSlashes(a + b) == CountSlashes(a) + CountSlashes(b)
  {
    if a == "" {
      assert a + b == b;
    } else {
      CountConcat(a[1..], b);
      assert (a + b)[1..] == a[1..] + b;
    }
  }

  lemma {:induction false} NoSlashes(s: string)
    requires forall c <- s :: NameChar(c)
    ensures CountSlashes(s) == 0
  {
    if s != "" {
      assert s[0] in s;
      NoSlashes(s[1..]);
    }
  }

  lemma SlashFixed(s: string)
    ensures StripSlashes(s) == s <==> s == "" || (s[0] != '/' && s[|s| - 1] != '/')
  {
    StripLeftShrinks(s, IsSlash);
    StripRightShrinks(StripLeft(s, IsSlash), IsSlash);
    StripRightShrinks(s, IsSlash);
  }

  predicate HasColon(s: string) {
    exists k :: 0 <= k < |s| && s[k] == ':'
  }

  lemma PrefixesHaveColons(prefix: string)
    requires prefix in REMOTE_PREFIXES
    ensures HasColon(prefix)
  {
    assert "https://github.com/"[5] == ':' && "http://github.com/"[4] == ':';
    assert "ssh://git@github.com/"[3] == ':' && "git@github.com:"[14] == ':';
  }

  lemma NoPrefix(s: string)
    requires ':' !in s
    ensures DropPrefix(s, Fold(s), REMOTE_PREFIXES) == s
  {
    hide REMOTE_PREFIXES, HasColon;
    NoColonFolded(s);
    forall prefix <- REMOTE_PREFIXES ensures !(prefix <= Fold(s)) {
      PrefixesHaveColons(prefix);
      ColonsStay(prefix, Fold(s));
    }
    NoPrefixIn(s, REMOTE_PREFIXES);
  }

  lemma NoColonFolded(s: string)
    requires ':' !in s
    ensures !HasColon(Fold(s))
  {
    MarkFold(s, ':');
  }

  lemma ColonsStay(prefix: string, s: string)
    requires HasColon(prefix)
    ensures prefix <= s ==> HasColon(s)
  {
    var k :| 0 <= k < |prefix| && prefix[k] == ':';
    assert prefix <= s ==> s[k] == ':';
  }

  lemma {:induction false} NoPrefixIn(s: string, prefixes: seq<string>)
    requires forall prefix <- prefixes :: !(prefix <= Fold(s))
    ensures DropPrefix(s, Fold(s), prefixes) == s
  {
    if prefixes != [] {
      assert prefixes[0] in prefixes;
      assert forall prefix <- prefixes[1..] :: prefix in prefixes;
      NoPrefixIn(s, prefixes[1..]);
    }
  }

  // A canonical repository name is its own identity.
  lemma RepositoryNameFixed(s: string)
    requires RepositoryName(s)
    ensures CanonicalRepoV2(s) == s && RepositoryScope(s) == Some(s)
  {
    hide OwnerName;
    NameChars(s);
    StripFixed(s);
    SlashFixed(s);
    NoPrefix(s);
  }

  lemma RepositoryScopeIsName(value: string)
    requires RepositoryScope(value).Some?
    ensures RepositoryName(RepositoryScope(value).value)
    ensures RepositoryScope(RepositoryScope(value).value) == RepositoryScope(value)
  {
    RepositoryNameFixed(RepositoryScope(value).value);
  }

  // A repository name, alone or before a branch, is no path at all.
  lemma NameIsNotPath(host: Host, s: string)
    requires Lexical(host) && |s| >= 2 && NameStart(s[0]) && s[1] != ':'
    ensures !V2AbsoluteScope(s) && !host.isAbsolute(Strip(s))
  {
    hide LexicalPaths, StripWith, Fold;
    assert host.isAbsolute(Strip(s)) == host.isAbsolute(s);
  }

  lemma NameEntry(host: Host, s: string)
    requires Lexical(host) && RepositoryName(s)
    ensures CanonicalEntry(host, s) == Some(s)
  {
    hide LexicalAbsolute, OwnerName, V2AbsoluteScope, RepositoryScope;
    NameChars(s);
    NameIsNotPath(host, s);
    RepositoryNameFixed(s);
    var at := Find(Fold(s), BRANCH_MARKER);
    FindIsFirst(Fold(s), BRANCH_MARKER);
    if at >= 0 { MarkerStartsWithColon(Fold(s), at); }
  }

  lemma PrefixTail(p: string, q: string, t: string)
    requires p + q <= t
    ensures q <= t[|p|..]
  {
    assert q == (p + q)[|p|..];
    assert t[..|p + q|] == p + q;
    assert t[|p|..][..|q|] == t[..|p + q|][|p|..];
  }

  lemma MarkerStartsWithColon(s: string, at: nat)
    requires OccursAt(s, BRANCH_MARKER, at)
    ensures at < |s| && s[at] == ':' && ':' in s
    ensures "refs/heads/" <= s[at + 1..]
  {
    var tail := s[at..];
    assert BRANCH_MARKER == ":" + "refs/heads/";
    assert tail[0] == ":"[0];
    PrefixTail(":", "refs/heads/", tail);
    assert tail[1..] == s[at + 1..];
  }

  // Where the marker first stands in name:branch.
  lemma MarkerAt(name: string, branch: string)
    requires ':' !in name && "refs/heads/" <= branch
    ensures Find(name + ":" + branch, BRANCH_MARKER) == |name|
  {
    hide Find;
    var t, rest := name + ":" + branch, ":" + branch;
    assert BRANCH_MARKER == ":" + "refs/heads/";
    assert BRANCH_MARKER <= rest && t[|name|..] == rest;
    assert OccursAt(t, BRANCH_MARKER, |name|);
    forall i | 0 <= i < |name| ensures !OccursAt(t, BRANCH_MARKER, i) {
      assert t[i..][0] == name[i] && name[i] in name;
    }
    FindIsFirst(t, BRANCH_MARKER);
  }

  lemma BranchEntry(host: Host, name: string, branch: string)
    requires Lexical(host) && RepositoryName(name) && "refs/heads/" <= branch && Fold(branch) == branch
    ensures CanonicalEntry(host, name + ":" + branch) == Some(name + ":" + branch)
  {
    hide LexicalAbsolute, OwnerName, V2AbsoluteScope, RepositoryScope, Find, Fold, BRANCH_MARKER, StripWith, OccursAt;
    var t := name + ":" + branch;
    NameChars(name);
    PartsOf(name, branch);
    NameIsNotPath(host, t);
    RepositoryNameFixed(name);
    FoldColon(name, branch);
    MarkerAt(name, branch);
  }

  lemma PartsOf(name: string, branch: string)
    requires |name| >= 2
    ensures var t := name + ":" + branch;
      t[0] == name[0] && t[1] == name[1] && t[..|name|] == name && t[|name| + 1..] == branch
  {
  }

  lemma FoldColon(a: string, b: string)
    requires Fold(a) == a && Fold(b) == b
    ensures Fold(a + ":" + b) == a + ":" + b
  {
    hide Fold;
    var t := a + ":" + b;
    assert FoldChar(':') == ':';
    forall i | 0 <= i < |t| ensures FoldChar(t[i]) == t[i] {
      if i < |a| {
        assert t[i] == a[i] == Fold(a)[i];
      } else if i > |a| {
        assert t[i] == b[i - |a| - 1] == Fold(b)[i - |a| - 1];
      }
    }
  }

  lemma {:induction false} CountFold(s: string)
    ensures CountSlashes(Fold(s)) == CountSlashes(s)
  {
    if s != "" {
      assert Fold(s)[1..] == Fold(s[1..]);
      CountFold(s[1..]);
    }
  }

  // Outside the path grammar, an entry's canonical form does not look at case.
  lemma EntryFold(host: Host, s: string)
    requires Lexical(host) && !V2AbsoluteScope(s)
    ensures CanonicalEntry(host, Fold(s)) == CanonicalEntry(host, s)
  {
    hide LexicalPaths, V2AbsoluteScope, RepositoryScope, CountSlashes, StripWith, Find, Fold, BRANCH_MARKER, OccursAt;
    var f := Fold(s);
    V2AbsoluteFold(s);
    FoldIdempotent(s);
    assert host.isAbsolute(Strip(f)) == host.isAbsolute(Strip(s)) by {
      assert host.isAbsolute(Strip(f)) == host.isAbsolute(f) && host.isAbsolute(Strip(s)) == host.isAbsolute(s);
    }
    MarkFold(s, ':');
    CountFold(s);
    RepositoryScopeFold(s);
    FindIsFirst(f, BRANCH_MARKER);
    if Find(f, BRANCH_MARKER) > 0 {
      MarkerStartsWithColon(f, Find(f, BRANCH_MARKER));
      MarkedFold(s, Find(f, BRANCH_MARKER));
    }
  }

  lemma RepositoryScopeFold(value: string)
    ensures RepositoryScope(Fold(value)) == RepositoryScope(value)
  {
    hide CanonicalRepoV2, OwnerName, EndsWith, Fold;
    RepoFold(value);
  }

  lemma MarkedFold(s: string, m: nat)
    requires m < |s|
    ensures RepositoryScope(Fold(s)[..m]) == RepositoryScope(s[..m])
    ensures Fold(Fold(s)[m + 1..]) == Fold(s[m + 1..])
  {
    hide RepositoryScope, Fold;
    var a, b := s[..m], s[m + 1..];
    FoldSlice(s, 0, m);
    FoldSlice(s, m + 1, |s|);
    RepositoryScopeFold(a);
    FoldIdempotent(b);
  }

  // Canonicalising an accepted entry again changes nothing.
  lemma CanonicalEntryIdempotent(host: Host, scope: string, entry: string)
    requires Lexical(host) && CanonicalEntry(host, scope) == Some(entry)
    ensures CanonicalEntry(host, entry) == Some(entry)
  {
    hide LexicalAbsolute, RepositoryScope, RepositoryName, CountSlashes, V2AbsoluteScope, Find, Fold, BRANCH_MARKER, StripWith, OccursAt;
    if V2AbsoluteScope(scope) {
      LexicalScopeFixpoint(scope, host.posix);
    } else if entry == Fold(scope) {
      EntryFold(host, scope);
    } else {
      var marker := Find(Fold(scope), BRANCH_MARKER);
      FindIsFirst(Fold(scope), BRANCH_MARKER);
      if marker > 0 {
        BranchOfMarker(scope, marker);
        var branch := scope[marker + 1..];
        RepositoryScopeIsName(scope[..marker]);
        FoldIdempotent(branch);
        BranchEntry(host, RepositoryScope(scope[..marker]).value, Fold(branch));
      } else {
        RepositoryScopeIsName(scope);
        NameEntry(host, RepositoryScope(scope).value);
      }
    }
  }

  lemma BranchOfMarker(scope: string, marker: nat)
    requires OccursAt(Fold(scope), BRANCH_MARKER, marker)
    ensures marker < |scope| && "refs/heads/" <= Fold(scope[marker + 1..])
  {
    hide Fold, BRANCH_MARKER, OccursAt;
    MarkerStartsWithColon(Fold(scope), marker);
    FoldSlice(scope, marker + 1, |scope|);
  }

  // ---- What a valid v2 lease reserves ----

  predicate Entry(host: Host, id: string) {
    id != "" && Strip(id) == id && CanonicalEntry(host, id) == Some(id)
  }

  lemma NameIsEntry(host: Host, s: string)
    requires Lexical(host) && RepositoryName(s)
    ensures Entry(host, s)
  {
    hide CanonicalEntry, OwnerName;
    NameEntry(host, s);
    NameChars(s);
    StripFixed(s);
  }

  // Both identities of a repository a v2 document may carry are that entry.
  lemma RepositoryIdentity(value: string, id: string)
    requires V2Name(Chomp(value)) && id in OverlapIdentities(value, true)
    ensures id == Fold(Chomp(value)) && RepositoryName(id)
  {
    hide OwnerName, EndsWith, Fold, CanonicalRepo, CanonicalRepoV2, StripWith;
    var name := Chomp(value);
    StripsToName(value);
    StripsToName(name);
    SameStripSameIdentity(value, name);
    RepositoryNameFixed(Fold(name));
    RepoFold(name);
    LegacyIdentity(name);
  }

  lemma SameStripSameIdentity(a: string, b: string)
    requires Strip(a) == Strip(b)
    ensures CanonicalRepo(a) == CanonicalRepo(b) && CanonicalRepoV2(a) == CanonicalRepoV2(b)
  {
  }

  // Stripping takes the one newline a schema pattern lets through.
  lemma StripsToName(value: string)
    requires V2Name(Chomp(value))
    ensures Strip(value) == Chomp(value) && Chomp(Chomp(value)) == Chomp(value)
  {
    hide OwnerName, EndsWith, IsSpace;
    var name := Chomp(value);
    NameEnds(name);
    assert IsSpace('\n') by { NewlineIsSpace(); }
    StripFixed(name);
    StripLeftEnd(value, IsSpace);
  }

  lemma NewlineIsSpace()
    ensures IsSpace('\n')
  {
  }

  lemma LegacyIdentity(value: string)
    requires V2Name(value)
    ensures CanonicalRepo(value) == Fold(value)
  {
    hide OwnerName, Fold, REMOTE_PREFIXES;
    var folded := Fold(value);
    NameChars(folded);
    NameEnds(value);
    StripFixed(value);
    SlashFixed(value);
    NoSuffix(value);
    MarkFold(value, ':');
    NoExactPrefix(value);
  }

  lemma NameEnds(value: string)
    requires OwnerName(Fold(value))
    ensures value != "" && !IsSpace(value[0]) && !IsSpace(value[|value| - 1])
    ensures value[0] != '/' && value[|value| - 1] != '/'
  {
    hide OwnerName, IsSpace, FoldChar;
    var folded := Fold(value);
    NameChars(folded);
    NameCharOf(value[0]);
    NameCharOf(value[|value| - 1]);
  }

  lemma NameCharOf(c: char)
    ensures NameChar(FoldChar(c)) ==> !IsSpace(c) && c != '/'
  {
  }

  lemma NoSuffix(value: string)
    requires !EndsWith(Fold(value), ".git")
    ensures RemoveSuffix(value, ".git") == value
  {
    assert Fold(".git") == ".git";
    if |value| >= 4 { FoldSlice(value, |value| - 4, |value|); }
  }

  lemma NoExactPrefix(s: string)
    requires ':' !in s
    ensures DropPrefix(s, s, REMOTE_PREFIXES) == s
  {
    hide REMOTE_PREFIXES;
    forall prefix <- REMOTE_PREFIXES ensures !(prefix <= s) {
      PrefixesHaveColons(prefix);
      ColonsStay(prefix, s);
    }
    NoExactPrefixIn(s, REMOTE_PREFIXES);
  }

  lemma {:induction false} NoExactPrefixIn(s: string, prefixes: seq<string>)
    requires forall prefix <- prefixes :: !(prefix <= s)
    ensures DropPrefix(s, s, prefixes) == s
  {
    if prefixes != [] {
      assert prefixes[0] in prefixes;
      assert forall prefix <- prefixes[1..] :: prefix in prefixes;
      NoExactPrefixIn(s, prefixes[1..]);
    }
  }

  // A branch identity is an entry exactly when the reference has no newline at its end.
  lemma BranchIsEntry(host: Host, name: string, branch: string)
    requires Lexical(host) && RepositoryName(name) && BranchRef(Chomp(branch))
    ensures Entry(host, name + ":" + Fold(branch)) <==> !EndsInNewline(branch)
  {
    hide CanonicalEntry, OwnerName, StripWith, IsSpace, EndsWith, BranchRef;
    if EndsInNewline(branch) {
      NewlineIsSpace();
      StripFixed(name + ":" + Fold(branch));
    } else {
      PlainBranchIsEntry(host, name, branch);
    }
  }

  lemma PlainBranchIsEntry(host: Host, name: string, branch: string)
    requires Lexical(host) && RepositoryName(name) && BranchRef(branch)
    ensures Entry(host, name + ":" + Fold(branch))
  {
    hide CanonicalEntry, OwnerName, Fold, StripWith, IsSpace, EndsWith;
    var folded := Fold(branch);
    var t := name + ":" + folded;
    NameChars(name);
    FoldIdempotent(branch);
    FoldedBranch(branch);
    BranchEntry(host, name, folded);
    assert t[0] == name[0] && t[|t| - 1] == folded[|folded| - 1];
    NameCharOf(name[0]);
    assert FoldChar(name[0]) == name[0];
    StripFixed(t);
  }

  lemma FoldedBranch(branch: string)
    requires BranchRef(branch)
    ensures var folded := Fold(branch);
      "refs/heads/" <= folded && folded != "" && !IsSpace(folded[|folded| - 1])
  {
    LowerPrefix("refs/heads/", branch);
    BranchEnd(branch);
  }

  lemma LowerPrefix(p: string, s: string)
    requires p <= s && forall i :: 0 <= i < |p| ==> FoldChar(p[i]) == p[i]
    ensures p <= Fold(s)
  {
  }

  lemma BranchEnd(branch: string)
    requires branch != "" && forall c <- branch :: ReferenceChar(c)
    ensures !IsSpace(Fold(branch)[|branch| - 1])
  {
    assert branch[|branch| - 1] in branch;
  }

  lemma PathIsEntry(host: Host, spelling: string, id: string)
    requires Lexical(host) && NativeAbsoluteScope(spelling, host.posix) && V2AbsoluteScope(spelling)
    requires id in host.pathIdentities(spelling, true)
    ensures Entry(host, id)
  {
    hide V2AbsoluteScope, NativeAbsoluteScope, LexicalScope, StripWith, LexicalAbsolute;
    LexicalScopeFixpoint(spelling, host.posix);
    assert id == LexicalScope(spelling, host.posix);
    PathFacts(id);
  }

  lemma PathFacts(s: string)
    requires V2AbsoluteScope(s)
    ensures s != "" && Strip(s) == s
  {
  }

  // ---- Such hosts exist, in both dialects ----

  predicate AbsoluteText(s: string) {
    var t := Strip(s);
    t != "" && (IsSeparator(t[0]) || DrivePath(t))
  }

  function LexicalHost(posix: bool): Host {
    Host((s: string) => LexicalScope(s, posix), (s: string, absolute: bool) => {LexicalScope(s, posix)},
         (s: string) => AbsoluteText(s), posix)
  }

  lemma {:induction false} StripRightEnd(s: string, drop: char -> bool)
    ensures var t := StripRight(s, drop); t <= s && (t != "" ==> !drop(t[|t| - 1]))
  {
    if s != "" && drop(s[|s| - 1]) { StripRightEnd(s[..|s| - 1], drop); }
  }

  lemma {:induction false} StripLeftEnd(s: string, drop: char -> bool)
    ensures var t := StripLeft(s, drop); t != "" ==> !drop(t[0])
    ensures s != "" && !drop(s[0]) ==> StripLeft(s, drop) == s
  {
    if s != "" && drop(s[0]) { StripLeftEnd(s[1..], drop); }
  }

  lemma StripTwice(s: string)
    ensures Strip(Strip(s)) == Strip(s)
    ensures s != "" && !IsSpace(s[0]) ==> Strip(s) <= s
  {
    StripLeftEnd(s, IsSpace);
    StripRightEnd(StripLeft(s, IsSpace), IsSpace);
    StripFixed(Strip(s));
  }

  lemma AbsoluteTextIsLexical(s: string)
    ensures AbsoluteText(Fold(s)) == AbsoluteText(s) && AbsoluteText(Strip(s)) == AbsoluteText(s)
    ensures AbsoluteText(s) && s != "" && NameStart(s[0]) ==> |s| >= 2 && s[1] == ':'
  {
    hide StripWith, Fold, AbsoluteText, Strip;
    AbsoluteTextFold(s);
    AbsoluteTextStrip(s);
    AbsoluteTextName(s);
  }

  lemma AbsoluteTextFold(s: string)
    ensures AbsoluteText(Fold(s)) == AbsoluteText(s)
  {
    hide StripWith, DrivePath, Fold;
    StripWithFold(s, IsSpace);
    var t := Strip(s);
    DriveFold(t);
    if t != "" { assert IsSeparator(Fold(t)[0]) == IsSeparator(t[0]); }
  }

  lemma AbsoluteTextStrip(s: string)
    ensures AbsoluteText(Strip(s)) == AbsoluteText(s)
  {
    hide StripWith;
    StripTwice(s);
  }

  lemma AbsoluteTextName(s: string)
    ensures AbsoluteText(s) && s != "" && NameStart(s[0]) ==> |s| >= 2 && s[1] == ':'
  {
    hide StripWith;
    StripTwice(s);
  }

  lemma LexicalHostIsLexical(posix: bool)
    ensures Lexical(LexicalHost(posix))
  {
    hide LexicalScope, AbsoluteText, V2AbsoluteScope, NativeAbsoluteScope, StripWith;
    var host := LexicalHost(posix);
    assert LexicalAbsolute(host) by {
      forall s ensures host.isAbsolute(Fold(s)) == host.isAbsolute(s) && host.isAbsolute(Strip(s)) == host.isAbsolute(s)
               ensures host.isAbsolute(s) && s != "" && NameStart(s[0]) ==> |s| >= 2 && s[1] == ':'
      {
        AbsoluteTextIsLexical(s);
      }
    }
  }
}
