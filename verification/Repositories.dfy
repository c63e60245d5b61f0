// Repository identities.
module Repositories {
  import opened Text

  function RemoveSuffix(s: string, suffix: string): string {
    if EndsWith(s, suffix) then s[..|s| - |suffix|] else s
  }

  const REMOTE_PREFIXES := [
    "https://github.com/", "http://github.com/", "ssh://git@github.com/", "git@github.com:"
  ]

  function DropPrefix(value: string, probe: string, prefixes: seq<string>): string
    requires |probe| == |value|
  {
    if prefixes == [] then value
    else if prefixes[0] <= probe then value[|prefixes[0]|..]
    else DropPrefix(value, probe, prefixes[1..])
  }

  // The v1 identity: the suffix goes first and prefixes match exactly.
  function CanonicalRepo(value: string): string {
    var bare := RemoveSuffix(Strip(value), ".git");
    Fold(StripSlashes(DropPrefix(bare, bare, REMOTE_PREFIXES)))
  }

  // The v2 identity: prefixes and suffix match case-insensitively, suffix last.
  function CanonicalRepoV2(value: string): string {
    var bare := Strip(value);
    var path := StripSlashes(DropPrefix(bare, Fold(bare), REMOTE_PREFIXES));
    Fold(if EndsWith(Fold(path), ".git") then path[..|path| - 4] else path)
  }

  function OverlapIdentities(value: string, includeV2Alias: bool): set<string> {
    {CanonicalRepo(value)} + if includeV2Alias then {CanonicalRepoV2(value)} else {}
  }
}
