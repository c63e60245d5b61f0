// The portable reference grammar shared by v2 leases and decisions.
module Grammar {
  import opened Text

  const INVALID_CHARACTERS := {'<', '>', ':', '"', '|', '?', '*'}

  const RESERVED_NAMES := {
    "con", "prn", "aux", "nul",
    "com1", "com2", "com3", "com4", "com5", "com6", "com7", "com8", "com9",
    "lpt1", "lpt2", "lpt3", "lpt4", "lpt5", "lpt6", "lpt7", "lpt8", "lpt9"
  }

  function BeforeDot(s: string): string {
    if s == "" || s[0] == '.' then "" else [s[0]] + BeforeDot(s[1..])
  }

  // A Windows device name, alone or with any extension.
  predicate Reserved(component: string) {
    Fold(BeforeDot(component)) in RESERVED_NAMES
  }

  predicate PlainChar(c: char) {
    32 <= c as int && c as int != 127 && c !in INVALID_CHARACTERS
  }

  predicate SafeComponent(component: string) {
    && component != ""
    && (forall c <- component :: PlainChar(c))
    && component != "." && component != ".."
    && component[|component| - 1] != '.' && component[|component| - 1] != ' '
    && !Reserved(component)
  }

  predicate SafeComponents(components: seq<string>) {
    forall component <- components :: SafeComponent(component)
  }

  predicate ReferenceChar(c: char) {
    'A' <= c <= 'Z' || 'a' <= c <= 'z' || '0' <= c <= '9' || c in {'.', '_', '/', '-'}
  }

  // One repository-relative reference.
  predicate PortableReference(value: string) {
    && value != "" && value[0] != '/'
    && (forall c <- value :: ReferenceChar(c))
    && SafeComponents(Split(value))
  }

  predicate IsLetter(c: char) {
    'A' <= c <= 'Z' || 'a' <= c <= 'z'
  }

  predicate IsSeparator(c: char) {
    c == '/' || c == '\\'
  }

  // A drive letter, a colon and a separator.
  predicate DrivePath(s: string) {
    |s| >= 3 && IsLetter(s[0]) && s[1] == ':' && IsSeparator(s[2])
  }

  function ForwardSlashes(s: string): (r: string)
    ensures |r| == |s|
    ensures forall i :: 0 <= i < |s| ==> r[i] == if s[i] == '\\' then '/' else s[i]
  {
    if s == "" then "" else [if s[0] == '\\' then '/' else s[0]] + ForwardSlashes(s[1..])
  }

  // What follows the root of a v2 absolute path.
  function RootedSuffix(value: string): (suffix: string)
    requires DrivePath(value) || (value != "" && value[0] == '/')
  {
    if DrivePath(value) then ForwardSlashes(value)[3..] else value[1..]
  }

  // Drive-absolute or single-root POSIX, with safe components only.
  predicate V2AbsoluteScope(value: string) {
    && value != "" && Strip(value) == value
    && !("\\\\" <= value) && !("//" <= value)
    && (DrivePath(value) || (value[0] == '/' && '\\' !in value))
    && (RootedSuffix(value) == "" || SafeComponents(Split(RootedSuffix(value))))
  }

  predicate NativeAbsoluteScope(value: string, posix: bool) {
    V2AbsoluteScope(Strip(value))
    && if posix then Strip(value)[0] == '/' else DrivePath(Strip(value))
  }
}
