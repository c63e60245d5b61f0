// ASCII text operations used by the canonicalisers: case folding, stripping,
// suffix tests and splitting on a slash.
module Text {

  function FoldChar(c: char): char {
    if 'A' <= c <= 'Z' then (c as int + 32) as char else c
  }

  // str.casefold restricted to ASCII text.
  function Fold(s: string): (r: string)
    ensures |r| == |s|
    ensures forall i :: 0 <= i < |s| ==> r[i] == FoldChar(s[i])
  {
    if s == "" then "" else [FoldChar(s[0])] + Fold(s[1..])
  }

  lemma FoldIdempotent(s: string)
    ensures Fold(Fold(s)) == Fold(s)
  {
  }

  predicate EndsWith(s: string, suffix: string) {
    |suffix| <= |s| && s[|s| - |suffix|..] == suffix
  }

  predicate IsSpace(c: char) {
    c == ' ' || c == '\t' || c == '\n' || c == '\r' || c as int == 11 || c as int == 12
  }

  predicate EndsInNewline(s: string) {
    s != "" && s[|s| - 1] == '\n'
  }

  // A schema pattern's final `$` also matches before one last newline: the text
  // such a pattern really constrains.
  function Chomp(s: string): string {
    if EndsInNewline(s) then s[..|s| - 1] else s
  }

  function StripLeft(s: string, drop: char -> bool): string {
    if s != "" && drop(s[0]) then StripLeft(s[1..], drop) else s
  }

  function StripRight(s: string, drop: char -> bool): string {
    if s != "" && drop(s[|s| - 1]) then StripRight(s[..|s| - 1], drop) else s
  }

  function StripWith(s: string, drop: char -> bool): string {
    StripRight(StripLeft(s, drop), drop)
  }

  function Strip(s: string): string {
    StripWith(s, IsSpace)
  }

  predicate IsSlash(c: char) { c == '/' }

  function StripSlashes(s: string): string {
    StripWith(s, IsSlash)
  }

  // str.split("/").
  function Split(s: string): (parts: seq<string>)
    ensures |parts| >= 1
  {
    if s == "" then [""]
    else
      var rest := Split(s[1..]);
      if s[0] == '/' then [""] + rest
      else [[s[0]] + rest[0]] + rest[1..]
  }
}
