// Canonical decision-scope entries.
module Scopes {
  import opened Commons
  import opened Text
  import opened Records
  import opened Grammar
  import opened Repositories

  predicate OccursAt(s: string, pattern: string, at: int) {
    0 <= at <= |s| && pattern <= s[at..]
  }

  // Where `pattern` first occurs in s, or -1.
  function Find(s: string, pattern: string): (at: int)
    ensures -1 <= at <= |s| && (pattern != "" && at >= 0 ==> at < |s|)
  {
    if pattern <= s then 0
    else if s == "" then -1
    else
      var rest := Find(s[1..], pattern);
      if rest < 0 then -1 else rest + 1
  }

  lemma {:induction false} FindIsFirst(s: string, pattern: string)
    ensures var at := Find(s, pattern);
      && (at >= 0 ==> OccursAt(s, pattern, at))
      && forall i :: 0 <= i <= |s| && (at < 0 || i < at) ==> !OccursAt(s, pattern, i)
  {
    if s != "" && !(pattern <= s) {
      FindIsFirst(s[1..], pattern);
      forall i | 0 <= i <= |s| ensures OccursAt(s, pattern, i) <==> i > 0 && OccursAt(s[1..], pattern, i - 1) {
        assert i == 0 ==> s[i..] == s;
        assert i > 0 ==> s[i..] == s[1..][i - 1..];
      }
    }
  }

  function CountSlashes(s: string): nat {
    if s == "" then 0 else (if s[0] == '/' then 1 else 0) + CountSlashes(s[1..])
  }

  predicate NameStart(c: char) { 'a' <= c <= 'z' || '0' <= c <= '9' }

  predicate NameChar(c: char) { NameStart(c) || c in {'.', '_', '-'} }

  predicate CanonicalName(s: string) {
    s != "" && NameStart(s[0]) && forall c <- s :: NameChar(c)
  }

  // Lower-case owner/name.
  predicate OwnerName(s: string) {
    var slash := Find(s, "/");
    slash >= 0 && CanonicalName(s[..slash]) && CanonicalName(s[slash + 1..])
  }

  function RepositoryScope(value: string): Option<string> {
    var canonical := CanonicalRepoV2(value);
    if OwnerName(canonical) && !EndsWith(canonical, ".git") then Some(canonical) else None
  }

  // The repository names a v2 document may carry.
  predicate V2Name(s: string) {
    OwnerName(Fold(s)) && !EndsWith(Fold(s), ".git")
  }

  // The branch references a v2 document may carry.
  predicate BranchRef(s: string) {
    && "refs/heads/" <= s && |s| > 11 && NameStart(FoldChar(s[11]))
    && (forall c <- s :: ReferenceChar(c))
    && s[|s| - 1] != '/' && s[|s| - 1] != '.'
  }

  const BRANCH_MARKER := ":refs/heads/"

  // None is the rejection of a path that is absolute but not of the v2 grammar.
  function CanonicalEntry(host: Host, scope: string): Option<string> {
    if V2AbsoluteScope(scope) then Some(host.canonicalScope(scope))
    else if host.isAbsolute(Strip(scope)) then None
    else
      var marker := Find(Fold(scope), BRANCH_MARKER);
      if marker > 0 then
        var repository := RepositoryScope(scope[..marker]);
        Some(if repository.Some? then repository.value + ":" + Fold(scope[marker + 1..]) else Fold(scope))
      else if ':' in scope then Some(Fold(scope))
      else if CountSlashes(scope) == 1 then
        Some(if RepositoryScope(scope).Some? then RepositoryScope(scope).value else Fold(scope))
      else Some(Fold(scope))
  }
}
