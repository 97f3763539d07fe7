/** The ignore matcher. A single pattern component is matched by `filepath.Match`, which is a parameter here. */
module Ignore {
  import opened Paths

  type Glob = (string, string) -> bool

  datatype Pattern = Pattern(negate: bool, segments: seq<string>, dirOnly: bool)

  const STARS := "**"

  // ---------------------------------------------------------------- the meaning of `**`

  function Sum(runs: seq<nat>): nat {
    if runs == [] then 0 else Sum(runs[..|runs| - 1]) + runs[|runs| - 1]
  }

  /** Segment `i`, given how many components each segment covers. */
  predicate Fits(glob: Glob, segs: seq<string>, parts: seq<string>, runs: seq<nat>, i: nat)
    requires i < |segs| == |runs|
  {
    segs[i] == STARS || (runs[i] == 1 && Sum(runs[..i]) < |parts| && glob(segs[i], parts[Sum(runs[..i])]))
  }

  ghost predicate Covers(glob: Glob, segs: seq<string>, parts: seq<string>, runs: seq<nat>) {
    |runs| == |segs| && Sum(runs) == |parts| && forall i :: 0 <= i < |segs| ==> Fits(glob, segs, parts, runs, i)
  }

  /** Every `**` can be replaced by a run of zero or more components so that the pattern and the path line up
      and each remaining segment matches its component. */
  ghost predicate Aligns(glob: Glob, segs: seq<string>, parts: seq<string>) {
    exists runs: seq<nat> :: Covers(glob, segs, parts, runs)
  }

  lemma {:induction false} SumCons(k: nat, runs: seq<nat>)
    ensures Sum([k] + runs) == k + Sum(runs)
  {
    if runs == [] {
      assert [k] + runs == [k] && [k][..0] == [];
    } else {
      var n := |runs| - 1;
      assert ([k] + runs)[..n + 1] == [k] + runs[..n];
      SumCons(k, runs[..n]);
    }
  }

  lemma {:induction false} SumMonotone(runs: seq<nat>, i: nat)
    requires i <= |runs|
    ensures Sum(runs[..i]) <= Sum(runs)
  {
    if i < |runs| {
      assert runs[..|runs| - 1][..i] == runs[..i];
      SumMonotone(runs[..|runs| - 1], i);
    } else {
      assert runs[..i] == runs;
    }
  }

  lemma CoversTail(glob: Glob, segs: seq<string>, parts: seq<string>, runs: seq<nat>)
    requires segs != [] && Covers(glob, segs, parts, runs)
    ensures runs[0] <= |parts| && Covers(glob, segs[1..], parts[runs[0]..], runs[1..])
  {
    var k, rest := runs[0], runs[1..];
    assert runs == [k] + rest;
    SumCons(k, rest);
    forall i | 0 <= i < |segs| - 1
      ensures Fits(glob, segs[1..], parts[k..], rest, i)
    {
      assert Fits(glob, segs, parts, runs, i + 1);
      assert runs[..i + 1] == [k] + rest[..i];
      SumCons(k, rest[..i]);
    }
  }

  lemma CoversCons(glob: Glob, segs: seq<string>, parts: seq<string>, k: nat, rest: seq<nat>)
    requires segs != [] && k <= |parts| && Covers(glob, segs[1..], parts[k..], rest)
    requires segs[0] == STARS || (k == 1 && glob(segs[0], parts[0]))
    ensures Covers(glob, segs, parts, [k] + rest)
  {
    var runs := [k] + rest;
    SumCons(k, rest);
    forall i | 0 <= i < |segs|
      ensures Fits(glob, segs, parts, runs, i)
    {
      if i == 0 {
        assert runs[..0] == [];
      } else {
        assert Fits(glob, segs[1..], parts[k..], rest, i - 1);
        assert runs[..i] == [k] + rest[..i - 1];
        SumCons(k, rest[..i - 1]);
      }
    }
  }

  lemma AlignsNil(glob: Glob, parts: seq<string>)
    ensures Aligns(glob, [], parts) <==> parts == []
  {
    if parts == [] {
      var none: seq<nat> := [];
      assert Covers(glob, [], parts, none);
    }
  }

  lemma AlignsPlain(glob: Glob, segs: seq<string>, parts: seq<string>)
    requires segs != [] && segs[0] != STARS
    ensures Aligns(glob, segs, parts) <==> parts != [] && glob(segs[0], parts[0]) && Aligns(glob, segs[1..], parts[1..])
  {
    if runs: seq<nat> :| Covers(glob, segs, parts, runs) {
      assert Fits(glob, segs, parts, runs, 0);
      assert runs[..0] == [];
      CoversTail(glob, segs, parts, runs);
    }
    if parts != [] && glob(segs[0], parts[0]) && Aligns(glob, segs[1..], parts[1..]) {
      var rest: seq<nat> :| Covers(glob, segs[1..], parts[1..], rest);
      CoversCons(glob, segs, parts, 1, rest);
    }
  }

  lemma AlignsStars(glob: Glob, segs: seq<string>, parts: seq<string>)
    requires segs != [] && segs[0] == STARS
    ensures Aligns(glob, segs, parts) <==> exists k :: 0 <= k <= |parts| && Aligns(glob, segs[1..], parts[k..])
  {
    if runs: seq<nat> :| Covers(glob, segs, parts, runs) {
      CoversTail(glob, segs, parts, runs);
      assert Aligns(glob, segs[1..], parts[runs[0]..]);
    }
    if k :| 0 <= k <= |parts| && Aligns(glob, segs[1..], parts[k..]) {
      var rest: seq<nat> :| Covers(glob, segs[1..], parts[k..], rest);
      CoversCons(glob, segs, parts, k, rest);
    }
  }

  // ---------------------------------------------------------------- the backtracking loop

  /** Terminates and decides alignment, for every glob. */
  method MatchSegmentsFlexible(glob: Glob, segments: seq<string>, parts: seq<string>) returns (r: bool)
    ensures r <==> Aligns(glob, segments, parts)
    decreases |segments|
  {
    var si, pi := 0, 0;
    while si < |segments| && pi < |parts|
      invariant si <= |segments| && pi <= |parts|
      invariant Aligns(glob, segments, parts) <==> Aligns(glob, segments[si..], parts[pi..])
    {
      if segments[si] == STARS {
        if si == |segments| - 1 {
          LastStars(glob, segments[si..], parts[pi..]);
          return true;
        }
        ghost var start := pi;
        while pi <= |parts|
          invariant start <= pi <= |parts| + 1
          invariant forall k :: start <= k < pi ==> !Aligns(glob, segments[si + 1..], parts[k..])
        {
          var rest := MatchSegmentsFlexible(glob, segments[si + 1..], parts[pi..]);
          if rest {
            StarsFound(glob, segments, parts, si, start, pi);
            return true;
          }
          pi := pi + 1;
        }
        StarsNotFound(glob, segments, parts, si, start);
        return false;
      }
      AlignsPlain(glob, segments[si..], parts[pi..]);
      assert segments[si..][1..] == segments[si + 1..] && parts[pi..][1..] == parts[pi + 1..];
      if !glob(segments[si], parts[pi]) {
        return false;
      }
      si, pi := si + 1, pi + 1;
    }
    while si < |segments| && segments[si] == STARS
      invariant si <= |segments|
      invariant pi == |parts| || si == |segments|
      invariant Aligns(glob, segments, parts) <==> Aligns(glob, segments[si..], parts[pi..])
    {
      StarsOnNothing(glob, segments[si..], parts[pi..]);
      assert segments[si..][1..] == segments[si + 1..];
      si := si + 1;
    }
    if si < |segments| {
      AlignsPlain(glob, segments[si..], parts[pi..]);
    } else {
      AlignsNil(glob, parts[pi..]);
    }
    return si == |segments| && pi == |parts|;
  }

  lemma LastStars(glob: Glob, segs: seq<string>, parts: seq<string>)
    requires segs == [STARS]
    ensures Aligns(glob, segs, parts)
  {
    AlignsStars(glob, segs, parts);
    AlignsNil(glob, []);
    assert parts[|parts|..] == [] && segs[1..] == [];
  }

  lemma StarsOnNothing(glob: Glob, segs: seq<string>, parts: seq<string>)
    requires segs != [] && segs[0] == STARS && parts == []
    ensures Aligns(glob, segs, parts) <==> Aligns(glob, segs[1..], parts)
  {
    AlignsStars(glob, segs, parts);
    assert parts[0..] == parts;
  }

  lemma StarsFound(glob: Glob, segs: seq<string>, parts: seq<string>, si: nat, start: nat, k: nat)
    requires si < |segs| && segs[si] == STARS && start <= k <= |parts| && Aligns(glob, segs[si + 1..], parts[k..])
    ensures Aligns(glob, segs[si..], parts[start..])
  {
    AlignsStars(glob, segs[si..], parts[start..]);
    assert segs[si..][1..] == segs[si + 1..];
    assert parts[start..][k - start..] == parts[k..];
  }

  lemma StarsNotFound(glob: Glob, segs: seq<string>, parts: seq<string>, si: nat, start: nat)
    requires si < |segs| && segs[si] == STARS && start <= |parts|
    requires forall k :: start <= k <= |parts| ==> !Aligns(glob, segs[si + 1..], parts[k..])
    ensures !Aligns(glob, segs[si..], parts[start..])
  {
    AlignsStars(glob, segs[si..], parts[start..]);
    assert segs[si..][1..] == segs[si + 1..];
    forall k | 0 <= k <= |parts| - start
      ensures !Aligns(glob, segs[si..][1..], parts[start..][k..])
    {
      assert parts[start..][k..] == parts[start + k..];
    }
  }

  // ---------------------------------------------------------------- the branches of the matcher

  /** The equal-length loop: matching goes segment by segment and is cut short by the first `**`. */
  predicate SameLengthMatch(glob: Glob, segs: seq<string>, parts: seq<string>)
    requires |segs| == |parts|
  {
    segs == [] || segs[0] == STARS || (glob(segs[0], parts[0]) && SameLengthMatch(glob, segs[1..], parts[1..]))
  }

  ghost predicate SegmentsMatch(glob: Glob, segs: seq<string>, full: string, parts: seq<string>) {
    var joined := Join(segs);
    if segs == [] then false
    else if joined == STARS then true
    else if HasPrefix(joined, STARS + "/") then
      var suffix := joined[3..];
      HasSuffix(full, suffix) || glob(suffix, Base(full))
    else if HasSuffix(joined, "/" + STARS) then
      var prefix := joined[..|joined| - 3];
      full == prefix || HasPrefix(full, prefix + "/") || prefix in parts || Contains(full, "/" + prefix + "/")
    else if |segs| != |parts| then Aligns(glob, segs, parts)
    else SameLengthMatch(glob, segs, parts)
  }

  /** A directory pattern is tried on every leading part of the path. */
  ghost predicate PathMatches(glob: Glob, segs: seq<string>, path: string, dirOnly: bool) {
    var parts := Split(path);
    if dirOnly then exists i :: 0 < i <= |parts| && SegmentsMatch(glob, segs, Join(parts[..i]), parts[..i])
    else SegmentsMatch(glob, segs, path, parts)
  }

  ghost predicate Matches(glob: Glob, p: Pattern, path: string) {
    if |p.segments| == 1 && !Contains(p.segments[0], STARS) then
      var seg := p.segments[0];
      if p.dirOnly then path == seg || HasPrefix(path, seg + "/")
      else glob(seg, Base(path)) || glob(seg, path)
    else PathMatches(glob, p.segments, path, p.dirOnly)
  }

  /** Which patterns match. */
  ghost function Hits(glob: Glob, ps: seq<Pattern>, path: string): (hits: seq<bool>)
    ensures |hits| == |ps|
  {
    seq(|ps|, i requires 0 <= i < |ps| => Matches(glob, ps[i], path))
  }

  /** The last pattern that matches decides. */
  predicate LastSays(hits: seq<bool>, ps: seq<Pattern>)
    requires |hits| == |ps|
  {
    ps != [] &&
    var n := |ps| - 1;
    if hits[n] then !ps[n].negate else LastSays(hits[..n], ps[..n])
  }

  ghost predicate Ignored(glob: Glob, ps: seq<Pattern>, path: string) {
    path != "" && LastSays(Hits(glob, ps, path), ps)
  }

  /** Entry `i` is set and none after it is. */
  predicate IsLast(hits: seq<bool>, i: nat)
    requires i < |hits|
  {
    hits[i] && forall j :: i < j < |hits| ==> !hits[j]
  }

  lemma {:induction false} LastDecides(hits: seq<bool>, ps: seq<Pattern>)
    requires |hits| == |ps|
    ensures LastSays(hits, ps) <==> exists i :: 0 <= i < |ps| && IsLast(hits, i) && !ps[i].negate
  {
    if ps != [] {
      var n := |ps| - 1;
      LastDecides(hits[..n], ps[..n]);
      if hits[n] {
        assert IsLast(hits, n);
        assert forall i :: 0 <= i < n ==> !IsLast(hits, i);
      } else {
        assert forall i :: 0 <= i < n ==> (IsLast(hits[..n], i) <==> IsLast(hits, i)) && ps[..n][i] == ps[i];
      }
    }
  }

  lemma {:induction false} SomeLast(hits: seq<bool>, k: nat) returns (i: nat)
    requires k < |hits| && hits[k]
    ensures i < |hits| && IsLast(hits, i)
  {
    var n := |hits| - 1;
    if hits[n] {
      i := n;
    } else {
      i := SomeLast(hits[..n], k);
    }
  }

  lemma HitsAre(glob: Glob, ps: seq<Pattern>, path: string)
    ensures forall i :: 0 <= i < |ps| ==> (Hits(glob, ps, path)[i] <==> Matches(glob, ps[i], path))
  {
  }

  lemma HitsPrefix(glob: Glob, ps: seq<Pattern>, path: string, n: nat)
    requires n <= |ps|
    ensures Hits(glob, ps, path)[..n] == Hits(glob, ps[..n], path)
  {
    HitsAre(glob, ps, path);
    HitsAre(glob, ps[..n], path);
  }

  /** Pattern `i` does not negate, matches, and is the last to match. */
  ghost predicate Decides(glob: Glob, ps: seq<Pattern>, path: string, i: nat)
    requires i < |ps|
  {
    !ps[i].negate && Matches(glob, ps[i], path) && forall j :: i < j < |ps| ==> !Matches(glob, ps[j], path)
  }

  lemma DecidesIs(glob: Glob, ps: seq<Pattern>, path: string, i: nat)
    requires i < |ps|
    ensures Decides(glob, ps, path, i) <==> IsLast(Hits(glob, ps, path), i) && !ps[i].negate
  {
    HitsAre(glob, ps, path);
    assert forall j :: 0 <= j < |ps| ==> (Matches(glob, ps[j], path) <==> Hits(glob, ps, path)[j]);
  }

  /** A path is ignored exactly when some pattern without `!` matches it and no later pattern does. */
  lemma IgnoredIff(glob: Glob, ps: seq<Pattern>, path: string)
    ensures Ignored(glob, ps, path) <==> path != "" && exists i :: 0 <= i < |ps| && Decides(glob, ps, path, i)
  {
    var hits := Hits(glob, ps, path);
    LastDecides(hits, ps);
    forall i | 0 <= i < |ps|
      ensures Decides(glob, ps, path, i) <==> IsLast(hits, i) && !ps[i].negate
    {
      DecidesIs(glob, ps, path, i);
    }
  }

  /** A pattern at the end of the list has the last word on what it matches, and changes nothing else. */
  lemma LastWord(glob: Glob, ps: seq<Pattern>, p: Pattern, path: string)
    requires path != ""
    ensures Matches(glob, p, path) ==> (Ignored(glob, ps + [p], path) <==> !p.negate)
    ensures !Matches(glob, p, path) ==> (Ignored(glob, ps + [p], path) <==> Ignored(glob, ps, path))
  {
    var more := ps + [p];
    HitsAre(glob, more, path);
    HitsPrefix(glob, more, path, |ps|);
    assert more[..|ps|] == ps && more[|ps|] == p;
    assert Hits(glob, more, path)[|ps|] <==> Matches(glob, p, path);
  }

  /** Without negation one match is enough. */
  lemma IgnoredIffSome(glob: Glob, ps: seq<Pattern>, path: string)
    requires path != "" && forall i :: 0 <= i < |ps| ==> !ps[i].negate
    ensures Ignored(glob, ps, path) <==> exists i :: 0 <= i < |ps| && Matches(glob, ps[i], path)
  {
    var hits := Hits(glob, ps, path);
    HitsAre(glob, ps, path);
    LastDecides(hits, ps);
    if k :| 0 <= k < |ps| && hits[k] {
      var i := SomeLast(hits, k);
    }
    SomeHit(hits, glob, ps, path);
  }

  lemma SomeHit(hits: seq<bool>, glob: Glob, ps: seq<Pattern>, path: string)
    requires |hits| == |ps| && forall i :: 0 <= i < |ps| ==> (hits[i] <==> Matches(glob, ps[i], path))
    ensures (exists k :: 0 <= k < |ps| && hits[k]) <==> exists i :: 0 <= i < |ps| && Matches(glob, ps[i], path)
  {
    if i :| 0 <= i < |ps| && Matches(glob, ps[i], path) {
      assert hits[i];
    }
    if k :| 0 <= k < |ps| && hits[k] {
      assert Matches(glob, ps[k], path);
    }
  }

  // ---------------------------------------------------------------- the code

  method MatchSegments(glob: Glob, segments: seq<string>, full: string, parts: seq<string>) returns (r: bool)
    ensures r <==> SegmentsMatch(glob, segments, full, parts)
  {
    if |segments| == 0 {
      return false;
    }
    var joined := Join(segments);
    if joined == STARS {
      return true;
    }
    if HasPrefix(joined, STARS + "/") {
      var suffix := joined[3..];
      return HasSuffix(full, suffix) || glob(suffix, Base(full));
    }
    if HasSuffix(joined, "/" + STARS) {
      var prefix := joined[..|joined| - 3];
      if full == prefix || HasPrefix(full, prefix + "/") {
        return true;
      }
      for i := 0 to |parts|
        invariant prefix !in parts[..i]
      {
        if parts[i] == prefix {
          return true;
        }
      }
      return Contains(full, "/" + prefix + "/");
    }
    if |segments| != |parts| {
      r := MatchSegmentsFlexible(glob, segments, parts);
      return;
    }
    for i := 0 to |segments|
      invariant SameLengthMatch(glob, segments, parts) == SameLengthMatch(glob, segments[i..], parts[i..])
    {
      assert segments[i..][1..] == segments[i + 1..] && parts[i..][1..] == parts[i + 1..];
      if segments[i] == STARS {
        return true;
      }
      if !glob(segments[i], parts[i]) {
        return false;
      }
    }
    return true;
  }

  method MatchPathPattern(glob: Glob, segments: seq<string>, path: string, dirOnly: bool) returns (r: bool)
    ensures r <==> PathMatches(glob, segments, path, dirOnly)
  {
    var parts := Split(path);
    if dirOnly && |parts| > 0 {
      for i := 0 to |parts|
        invariant forall k :: 0 < k <= i ==> !SegmentsMatch(glob, segments, Join(parts[..k]), parts[..k])
      {
        var ok := MatchSegments(glob, segments, Join(parts[..i + 1]), parts[..i + 1]);
        if ok {
          return true;
        }
      }
      return false;
    }
    r := MatchSegments(glob, segments, path, parts);
  }

  method Match(glob: Glob, p: Pattern, path: string) returns (r: bool)
    ensures r <==> Matches(glob, p, path)
  {
    if |p.segments| == 1 && !Contains(p.segments[0], STARS) {
      var seg := p.segments[0];
      if p.dirOnly {
        return path == seg || HasPrefix(path, seg + "/");
      }
      return glob(seg, Base(path)) || glob(seg, path);
    }
    r := MatchPathPattern(glob, p.segments, path, p.dirOnly);
  }

  method IsIgnored(glob: Glob, patterns: seq<Pattern>, path: string) returns (ignored: bool)
    ensures ignored <==> Ignored(glob, patterns, path)
    ensures ignored <==> path != "" && exists i :: 0 <= i < |patterns| && Decides(glob, patterns, path, i)
  {
    IgnoredIff(glob, patterns, path);
    if path == "" {
      return false;
    }
    ignored := false;
    ghost var hits := Hits(glob, patterns, path);
    HitsAre(glob, patterns, path);
    for i := 0 to |patterns|
      invariant ignored <==> LastSays(hits[..i], patterns[..i])
    {
      assert patterns[..i + 1][..i] == patterns[..i] && hits[..i + 1][..i] == hits[..i];
      var hit := Match(glob, patterns[i], path);
      if hit {
        ignored := !patterns[i].negate;
      }
    }
    assert patterns[..|patterns|] == patterns && hits[..|patterns|] == hits;
  }
}
