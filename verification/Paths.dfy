/** Slash-separated paths as the Go `strings` and `path/filepath` functions see them on a system whose
    separator is the slash. */
module Paths {
  predicate HasPrefix(s: string, prefix: string) {
    prefix <= s
  }

  predicate HasSuffix(s: string, suffix: string) {
    |suffix| <= |s| && s[|s| - |suffix|..] == suffix
  }

  predicate OccursAt(s: string, sub: string, i: nat) {
    i + |sub| <= |s| && s[i..i + |sub|] == sub
  }

  predicate Contains(s: string, sub: string) {
    exists i :: 0 <= i <= |s| && OccursAt(s, sub, i)
  }

  /** `strings.Split(s, "/")`. */
  function Split(s: string): (parts: seq<string>)
    ensures |parts| > 0
    ensures forall i :: 0 <= i < |parts| ==> '/' !in parts[i]
  {
    if s == "" then [""]
    else
      var rest := Split(s[1..]);
      if s[0] == '/' then [""] + rest else [[s[0]] + rest[0]] + rest[1..]
  }

  /** `strings.Join(parts, "/")`. */
  function Join(parts: seq<string>): string {
    if parts == [] then ""
    else if |parts| == 1 then parts[0]
    else parts[0] + "/" + Join(parts[1..])
  }

  /** `filepath.Base`. */
  function Base(path: string): string {
    if path == "" then "." else BaseOf(TrimSlashes(path))
  }

  function TrimSlashes(path: string): string {
    if path != "" && path[|path| - 1] == '/' then TrimSlashes(path[..|path| - 1]) else path
  }

  function BaseOf(path: string): string {
    if path == "" then "/" else Split(path)[|Split(path)| - 1]
  }

  predicate Parts(parts: seq<string>) {
    parts != [] && forall i :: 0 <= i < |parts| ==> '/' !in parts[i]
  }

  lemma {:induction false} JoinOfSplit(s: string)
    ensures Join(Split(s)) == s
  {
    if s != "" {
      JoinOfSplit(s[1..]);
      var rest := Split(s[1..]);
      if s[0] != '/' {
        if |rest| > 1 {
          assert ([[s[0]] + rest[0]] + rest[1..])[1..] == rest[1..];
          assert Join(Split(s)) == ([s[0]] + rest[0]) + "/" + Join(rest[1..]) == [s[0]] + Join(rest);
        }
        assert s == [s[0]] + s[1..];
      } else {
        assert ([""] + rest)[1..] == rest;
        assert Join(Split(s)) == "" + "/" + s[1..] == s;
      }
    }
  }

  /** Splitting distributes over a slash. */
  lemma {:induction false} SplitAtSlash(x: string, y: string)
    ensures Split(x + "/" + y) == Split(x) + Split(y)
  {
    var s := x + "/" + y;
    if x == "" {
      assert s[1..] == y && s[0] == '/';
    } else {
      var rest := Split(x[1..]);
      SplitAtSlash(x[1..], y);
      assert s[1..] == x[1..] + "/" + y && s[0] == x[0];
      assert Split(s[1..]) == rest + Split(y);
      assert (rest + Split(y))[0] == rest[0] && (rest + Split(y))[1..] == rest[1..] + Split(y);
    }
  }

  lemma {:induction false} SplitPlain(s: string)
    requires '/' !in s
    ensures Split(s) == [s]
  {
    if s != "" {
      SplitPlain(s[1..]);
      assert [s[0]] + s[1..] == s;
    }
  }

  lemma {:induction false} SplitOfJoin(parts: seq<string>)
    requires Parts(parts)
    ensures Split(Join(parts)) == parts
  {
    if |parts| == 1 {
      SplitPlain(parts[0]);
    } else {
      SplitOfJoin(parts[1..]);
      SplitPlain(parts[0]);
      SplitAtSlash(parts[0], Join(parts[1..]));
      assert Join(parts) == parts[0] + "/" + Join(parts[1..]);
    }
  }

  lemma {:induction false} JoinAppend(a: seq<string>, b: seq<string>)
    requires a != [] && b != []
    ensures Join(a + b) == Join(a) + "/" + Join(b)
  {
    if |a| == 1 {
      assert (a + b)[1..] == b;
    } else {
      assert (a + b)[1..] == a[1..] + b;
      JoinAppend(a[1..], b);
      assert Join(a) == a[0] + "/" + Join(a[1..]);
      assert Join(a + b) == a[0] + "/" + (Join(a[1..]) + "/" + Join(b));
    }
  }

  lemma JoinHasSuffix(front: seq<string>, parts: seq<string>)
    requires front != [] && parts != []
    ensures HasSuffix(Join(front + parts), "/" + Join(parts))
  {
    JoinAppend(front, parts);
    var x, y := Join(front), "/" + Join(parts);
    assert Join(front + parts) == x + y;
    assert (x + y)[|x|..] == y;
  }

  lemma TailGivesSuffix(path: string, parts: seq<string>, j: nat)
    requires Parts(parts) && j <= |Split(path)| && Split(path)[j..] == parts
    ensures path == Join(parts) || HasSuffix(path, "/" + Join(parts))
  {
    var front := Split(path)[..j];
    JoinOfSplit(path);
    assert Split(path) == front + parts;
    if j > 0 {
      JoinHasSuffix(front, parts);
    } else {
      assert front + parts == parts;
    }
  }

  lemma SuffixGivesTail(path: string, parts: seq<string>)
    requires Parts(parts) && HasSuffix(path, "/" + Join(parts))
    ensures exists j :: 0 <= j <= |Split(path)| && Split(path)[j..] == parts
  {
    var y := Join(parts);
    var x := path[..|path| - |y| - 1];
    assert path == x + ("/" + y) == x + "/" + y;
    SplitAtSlash(x, y);
    SplitOfJoin(parts);
    assert Split(path)[|Split(x)|..] == parts;
  }

  /** A path ends in `parts` as whole components exactly when it is their join or has it behind a slash. */
  lemma EndsInPartsIff(path: string, parts: seq<string>)
    requires Parts(parts)
    ensures (exists j :: 0 <= j <= |Split(path)| && Split(path)[j..] == parts)
            <==> path == Join(parts) || HasSuffix(path, "/" + Join(parts))
  {
    if j :| 0 <= j <= |Split(path)| && Split(path)[j..] == parts {
      TailGivesSuffix(path, parts, j);
    }
    if path == Join(parts) {
      SplitOfJoin(parts);
      assert Split(path)[0..] == parts;
    }
    if HasSuffix(path, "/" + Join(parts)) {
      SuffixGivesTail(path, parts);
    }
  }

  lemma HeadGivesPrefix(path: string, parts: seq<string>)
    requires Parts(parts) && parts <= Split(path)
    ensures path == Join(parts) || HasPrefix(path, Join(parts) + "/")
  {
    var back := Split(path)[|parts|..];
    JoinOfSplit(path);
    assert Split(path) == parts + back;
    if back != [] {
      JoinAppend(parts, back);
    } else {
      assert parts + back == parts;
    }
  }

  lemma PrefixGivesHead(path: string, parts: seq<string>)
    requires Parts(parts) && HasPrefix(path, Join(parts) + "/")
    ensures parts <= Split(path)
  {
    var y := path[|Join(parts)| + 1..];
    assert path == Join(parts) + "/" + y;
    SplitOfJoin(parts);
    SplitAtSlash(Join(parts), y);
  }

  /** A path begins with `parts` as whole components exactly when it is their join or has it before a slash. */
  lemma BeginsWithPartsIff(path: string, parts: seq<string>)
    requires Parts(parts)
    ensures parts <= Split(path) <==> path == Join(parts) || HasPrefix(path, Join(parts) + "/")
  {
    if parts <= Split(path) {
      HeadGivesPrefix(path, parts);
    }
    if path == Join(parts) {
      SplitOfJoin(parts);
    }
    if HasPrefix(path, Join(parts) + "/") {
      PrefixGivesHead(path, parts);
    }
  }
}
