// What several modules share.
module Commons {

  datatype Option<+T> = None | Some(value: T)

  // SHA-256 of canonical bytes, taken as injective in what they encode.
  datatype Digest<+T> = Sha256(content: T)

  predicate Distinct<T(==)>(s: seq<T>) {
    forall i, j :: 0 <= i < j < |s| ==> s[i] != s[j]
  }

  const TWO_64 := 0x1_0000_0000_0000_0000

  // Any native, file-system, Git or pipe step whose inside is not modelled.
  method Attempt() returns (ok: bool)
  {
    ok := *;
  }
}
