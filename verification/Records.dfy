// Lease records, owner decisions and the immutable evidence store they refer to.
module Records {
  import opened Commons

  datatype Mode = Read | Write

  // A repository binding. A missing or unknown mode is None.
  datatype Item =
    | Malformed
    | Item(repository: string, mode: Option<Mode>,
           canonicalPath: Option<string>, worktreeRoot: Option<string>,
           branchRef: Option<string>, exactSha: Option<string>)

  datatype Schema = V1 | V2 | UnknownSchema
  datatype State = Active | Released | OtherState
  datatype Authority = Normal | StaleRecovery

  // Timestamps are instants (microseconds); their text form is not modelled.
  datatype Record = Record(
    schema: Schema,
    leaseId: Option<string>,
    runId: string,
    state: State,
    generation: int,
    created: Option<int>,
    heartbeat: Option<int>,
    expires: Option<int>,
    owner: string,
    coordination: Option<string>,
    repositories: seq<Item>,
    localScopes: seq<string>,
    infrastructure: seq<string>,
    activeWriter: Option<string>,
    decisionRef: Option<string>,
    releaseDecisionRef: Option<string>,
    releaseAuthority: Option<Authority>,
    released: Option<int>,
    outcomeRef: Option<string>,
    outcomeSha: Option<string>)

  // A resolved path inside the repository root.
  type Location = string

  datatype Reference = NoReference | MalformedReference | Reference(text: string)

  // A decision file as loaded. The three evidence flags stand for JSON Schema
  // validation, the schema version and the hashed Markdown companion.
  datatype Decision = Decision(
    schemaValid: bool,
    isV2: bool,
    markdownBound: bool,
    runId: string,
    sequence: Option<int>,
    accepted: bool,
    previous: Reference,
    actions: seq<string>,
    leaseId: Option<string>,
    leaseGeneration: Option<int>,
    digest: Option<Digest<Record>>,
    scope: Option<seq<string>>)

  // references: the repository-relative texts that resolve inside the root, and
  // where to; decisions: the files there that load as a JSON object; outcomes:
  // the regular files and their SHA-256.
  datatype Store = Store(
    references: map<string, Location>,
    decisions: map<Location, Decision>,
    outcomes: map<Location, string>)

  // What the host's path libraries answer: the canonical form of an absolute
  // scope, every conservative identity of a spelling (the flag asks for
  // absolute spellings only), absoluteness, and the native dialect.
  datatype Host = Host(
    canonicalScope: string -> string,
    pathIdentities: (string, bool) -> set<string>,
    isAbsolute: string -> bool,
    posix: bool)

  const MAX_SAFE_INTEGER := 0x1F_FFFF_FFFF_FFFF

  predicate IsSafeInteger(n: int) {
    -MAX_SAFE_INTEGER <= n <= MAX_SAFE_INTEGER
  }
}
