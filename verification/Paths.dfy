// Path nesting: a prefix test on canonical path strings agrees with the
// component-by-component reading of the same paths.
module Paths {
  import opened Text

  // The path with a separator at its end.
  function Closed(path: string): (r: string) {
    if EndsWith(path, "/") then path else path + "/"
  }

  predicate PathsOverlap(left: string, right: string) {
    left == right || Closed(left) <= right || Closed(right) <= left
  }

  function DropOneSlash(path: string): string {
    if EndsWith(path, "/") then path[..|path| - 1] else path
  }

  // The components of a path, one trailing separator ignored.
  function Components(path: string): (parts: seq<string>) {
    Split(DropOneSlash(path))
  }

  predicate Nested(a: seq<string>, b: seq<string>) {
    a <= b || b <= a
  }

  lemma ClosedIsDropped(path: string)
    ensures Closed(path) == DropOneSlash(path) + "/"
  {
    if EndsWith(path, "/") {
      assert path == path[..|path| - 1] + path[|path| - 1..];
    }
  }

  lemma EmptyPrefix(t: string)
    ensures Split("") <= Split(t) <==> "" + "/" <= t + "/"
  {
    assert Split("") == [""];
    if t == "" {
      assert Split("") <= Split(t);
    } else if t[0] == '/' {
      assert Split(t)[0] == "";
      assert (t + "/")[..1] == "/";
    } else {
      assert Split(t)[0][0] == t[0];
      assert (t + "/")[0] != '/';
    }
  }

  // One component list is a prefix of another exactly when the joined text,
  // closed by a separator, is.
  lemma {:induction false} SplitPrefix(s: string, t: string)
    ensures Split(s) <= Split(t) <==> s + "/" <= t + "/"
    decreases |s|
  {
    if s == "" {
      EmptyPrefix(t);
    } else if t == "" {
      assert |s + "/"| > |t + "/"|;
      assert s[0] == '/' ==> |Split(s)| >= 2;
      assert s[0] != '/' ==> Split(s)[0] != "";
    } else {
      SplitPrefix(s[1..], t[1..]);
      assert (s + "/")[0] == s[0] && (t + "/")[0] == t[0];
      assert (s + "/")[1..] == s[1..] + "/";
      assert (t + "/")[1..] == t[1..] + "/";
      assert s + "/" <= t + "/" <==> s[0] == t[0] && s[1..] + "/" <= t[1..] + "/";
      var a, b := Split(s[1..]), Split(t[1..]);
      if s[0] == '/' && t[0] == '/' {
        assert ([""] + a)[1..] == a && ([""] + b)[1..] == b;
        assert [""] + a <= [""] + b ==> a <= b;
      } else if s[0] != '/' && t[0] != '/' {
        var c, d := [[s[0]] + a[0]] + a[1..], [[t[0]] + b[0]] + b[1..];
        assert c <= d ==> s[0] == t[0] && a <= b by {
          if c <= d {
            assert c[0] == d[0];
            assert c[0][0] == s[0] && d[0][0] == t[0];
            assert c[0][1..] == a[0] && d[0][1..] == b[0];
            assert c[1..] == a[1..] && d[1..] == b[1..];
            assert a == [a[0]] + a[1..] && b == [b[0]] + b[1..];
          }
        }
        assert s[0] == t[0] && a <= b ==> c <= d;
      } else {
        assert Split(s)[0] != Split(t)[0];
      }
    }
  }

  // Two closed paths are comparable by prefix exactly when the code's three-way
  // test accepts them.
  lemma OverlapByClosedPrefix(left: string, right: string)
    ensures PathsOverlap(left, right)
       <==> Closed(left) <= Closed(right) || Closed(right) <= Closed(left)
  {
    ClosedPrefix(left, right);
    ClosedPrefix(right, left);
  }

  lemma ClosedPrefix(left: string, right: string)
    ensures Closed(left) <= Closed(right) ==> PathsOverlap(left, right)
    ensures Closed(left) <= right ==> Closed(left) <= Closed(right)
  {
    ClosedIsDropped(left);
    ClosedIsDropped(right);
    if Closed(left) <= Closed(right) && !(Closed(left) <= right) {
      assert |Closed(left)| == |Closed(right)|;
      assert DropOneSlash(left) == (DropOneSlash(left) + "/")[..|DropOneSlash(left)|];
      assert DropOneSlash(right) == (DropOneSlash(right) + "/")[..|DropOneSlash(right)|];
      assert DropOneSlash(left) == DropOneSlash(right);
    }
  }

  // For all strings, the prefix test holds exactly when one component list is
  // a prefix of the other.
  lemma OverlapIsComponentNesting(left: string, right: string)
    ensures PathsOverlap(left, right) <==> Nested(Components(left), Components(right))
  {
    OverlapByClosedPrefix(left, right);
    ClosedIsDropped(left);
    ClosedIsDropped(right);
    SplitPrefix(DropOneSlash(left), DropOneSlash(right));
    SplitPrefix(DropOneSlash(right), DropOneSlash(left));
  }

  // A sibling whose name merely extends another's never overlaps it.
  lemma SiblingsNeverOverlap(parent: string, name: string, extension: string)
    requires name != "" && extension != ""
    requires '/' !in name && '/' !in extension
    ensures !PathsOverlap(parent + "/" + name, parent + "/" + name + extension)
  {
    var a := parent + "/" + name;
    var b := a + extension;
    assert a[|a| - 1] == name[|name| - 1] && a[|a| - 1] in name;
    assert b[|b| - 1] == extension[|extension| - 1] && b[|b| - 1] in extension;
    assert Closed(a) == a + "/";
    assert Closed(a)[|a|] == '/';
    assert b[|a|] == extension[0] && extension[0] in extension;
    assert |Closed(b)| > |a|;
  }
}
