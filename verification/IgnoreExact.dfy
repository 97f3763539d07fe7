/** How far the fast string branches of the matcher agree with the meaning of `**`: exactly, by the place
    of the `**`. */
module IgnoreExact {
  import opened Paths
  import opened Ignore

  /** A segment without the metacharacters of `filepath.Match`. */
  predicate NoMeta(s: string) {
    '*' !in s && '?' !in s && '[' !in s && '\\' !in s
  }

  predicate Literal(segs: seq<string>) {
    forall i :: 0 <= i < |segs| ==> NoMeta(segs[i]) && '/' !in segs[i]
  }

  /** What is used of `filepath.Match`: a pattern without metacharacters matches itself only. */
  ghost predicate LiteralGlob(glob: Glob) {
    forall p, n :: NoMeta(p) ==> (glob(p, n) <==> p == n)
  }

  lemma {:induction false} JoinNoMeta(segs: seq<string>)
    requires Literal(segs)
    ensures NoMeta(Join(segs))
  {
    if |segs| > 1 {
      JoinNoMeta(segs[1..]);
    }
  }

  lemma {:induction false} AlignsLiteral(glob: Glob, segs: seq<string>, parts: seq<string>)
    requires LiteralGlob(glob) && Literal(segs)
    ensures Aligns(glob, segs, parts) <==> segs == parts
  {
    if segs == [] {
      AlignsNil(glob, parts);
    } else {
      AlignsPlain(glob, segs, parts);
      if parts != [] {
        AlignsLiteral(glob, segs[1..], parts[1..]);
        assert segs == [segs[0]] + segs[1..] && parts == [parts[0]] + parts[1..];
      }
    }
  }

  /** One `**` between two literal runs lines up exactly with the paths that begin with the one, go on, and end
      with the other. */
  lemma {:induction false} AlignsAround(glob: Glob, l: seq<string>, r: seq<string>, parts: seq<string>)
    requires LiteralGlob(glob) && Literal(l) && Literal(r)
    ensures Aligns(glob, l + [STARS] + r, parts) <==>
              l <= parts && exists j :: |l| <= j <= |parts| && parts[j..] == r
  {
    var segs := l + [STARS] + r;
    if l == [] {
      assert segs == [STARS] + r && segs[1..] == r;
      AlignsStars(glob, segs, parts);
      forall j | 0 <= j <= |parts|
        ensures Aligns(glob, r, parts[j..]) <==> parts[j..] == r
      {
        AlignsLiteral(glob, r, parts[j..]);
      }
    } else {
      assert segs[1..] == l[1..] + [STARS] + r;
      AlignsPlain(glob, segs, parts);
      if parts != [] && parts[0] == l[0] {
        AlignsAround(glob, l[1..], r, parts[1..]);
        assert l <= parts <==> l[1..] <= parts[1..] by {
          assert l == [l[0]] + l[1..] && parts == [parts[0]] + parts[1..];
        }
        assert forall j :: 1 <= j <= |parts| ==> parts[1..][j - 1..] == parts[j..];
        if j :| |l| <= j <= |parts| && parts[j..] == r {
          assert parts[1..][j - 1..] == r;
        }
        if j :| |l| - 1 <= j <= |parts| - 1 && parts[1..][j..] == r {
          assert parts[j + 1..] == r;
        }
      }
    }
  }

  // ---------------------------------------------------------------- no `**`

  lemma NoStarJoin(segs: seq<string>)
    requires Literal(segs)
    ensures var s := Join(segs); s != STARS && !HasPrefix(s, STARS + "/") && !HasSuffix(s, "/" + STARS)
  {
    JoinNoMeta(segs);
    StarChars(Join(segs));
  }

  lemma StarChars(s: string)
    ensures HasPrefix(s, STARS + "/") ==> s[0] == '*'
    ensures HasSuffix(s, "/" + STARS) ==> s[|s| - 1] == '*'
  {
    if HasSuffix(s, "/" + STARS) {
      assert s[|s| - 1] == s[|s| - 3..][2];
    }
  }

  lemma {:induction false} SameLengthLiteral(glob: Glob, segs: seq<string>, parts: seq<string>)
    requires LiteralGlob(glob) && Literal(segs) && |segs| == |parts|
    ensures SameLengthMatch(glob, segs, parts) <==> segs == parts
  {
    if segs != [] {
      SameLengthLiteral(glob, segs[1..], parts[1..]);
      assert segs == [segs[0]] + segs[1..] && parts == [parts[0]] + parts[1..];
    }
  }

  /** Without `**` the matcher is exact. */
  lemma PlainIff(glob: Glob, segs: seq<string>, full: string, parts: seq<string>)
    requires LiteralGlob(glob) && Literal(segs) && segs != []
    ensures SegmentsMatch(glob, segs, full, parts) <==> Aligns(glob, segs, parts)
    ensures SegmentsMatch(glob, segs, full, parts) <==> segs == parts
  {
    NoStarJoin(segs);
    AlignsLiteral(glob, segs, parts);
    if |segs| == |parts| {
      SameLengthLiteral(glob, segs, parts);
    }
  }

  // ---------------------------------------------------------------- `**/r`

  /** With a leading `**` the matcher compares bare strings, so it also takes paths that end in the suffix in the
      middle of a component, and directories given with a trailing slash. */
  lemma LeadingStarsIff(glob: Glob, r: seq<string>, full: string)
    requires LiteralGlob(glob) && Literal(r) && r != []
    ensures var segs := [STARS] + r;
            var suffix := Join(r);
            && (Aligns(glob, segs, Split(full)) <==> full == suffix || HasSuffix(full, "/" + suffix))
            && (SegmentsMatch(glob, segs, full, Split(full)) <==> HasSuffix(full, suffix) || Base(full) == suffix)
  {
    var segs := [STARS] + r;
    var suffix := Join(r);
    JoinNoMeta(r);
    assert segs[1..] == r;
    assert Join(segs) == STARS + "/" + suffix;
    assert Join(segs)[3..] == suffix;
    AlignsAround(glob, [], r, Split(full));
    assert [] + [STARS] + r == segs;
    EndsInPartsIff(full, r);
  }

  // ---------------------------------------------------------------- `l/**`

  lemma StarsInJoin(l: seq<string>)
    requires Parts(l) && l[0] != STARS
    ensures var s := Join(l + [STARS]);
            && s == Join(l) + "/" + STARS && s[..|s| - 3] == Join(l)
            && s != STARS && !HasPrefix(s, STARS + "/") && HasSuffix(s, "/" + STARS)
  {
    JoinAppend(l, [STARS]);
    var s := Join(l + [STARS]);
    assert s == Join(l) + ("/" + STARS);
    assert Parts(l + [STARS]);
    SplitOfJoin(l + [STARS]);
    assert Split(s)[0] == l[0];
    if HasPrefix(s, STARS + "/") {
      SplitOfStarsSlash(s);
    }
  }

  lemma SplitOfStarsSlash(s: string)
    requires HasPrefix(s, STARS + "/")
    ensures Split(s)[0] == STARS
  {
    assert s == STARS + "/" + s[3..];
    SplitAtSlash(STARS, s[3..]);
    SplitPlain(STARS);
  }

  lemma LiteralParts(l: seq<string>)
    requires Literal(l) && l != []
    ensures Parts(l) && forall i :: 0 <= i < |l| ==> l[i] != STARS
  {
    assert STARS[0] == '*';
  }

  /** With a trailing `**` the matcher also takes paths that have the directory anywhere inside. */
  lemma TrailingStarsIff(glob: Glob, l: seq<string>, full: string)
    requires LiteralGlob(glob) && Literal(l) && l != []
    ensures var segs := l + [STARS];
            var dir := Join(l);
            && (Aligns(glob, segs, Split(full)) <==> full == dir || HasPrefix(full, dir + "/"))
            && (SegmentsMatch(glob, segs, full, Split(full)) <==>
                  full == dir || HasPrefix(full, dir + "/") || dir in Split(full) || Contains(full, "/" + dir + "/"))
  {
    var segs := l + [STARS];
    LiteralParts(l);
    StarsInJoin(l);
    AlignsAround(glob, l, [], Split(full));
    assert l + [STARS] + [] == segs;
    assert Split(full)[|Split(full)|..] == [];
    BeginsWithPartsIff(full, l);
  }

  // ---------------------------------------------------------------- `l/**/r`

  lemma MiddleJoin(l: seq<string>, r: seq<string>)
    requires Literal(l) && Literal(r) && l != [] && r != []
    ensures var s := Join(l + [STARS] + r); s != STARS && !HasPrefix(s, STARS + "/") && !HasSuffix(s, "/" + STARS)
  {
    JoinAppend(l, [STARS] + r);
    JoinAppend([STARS], r);
    assert l + [STARS] + r == l + ([STARS] + r);
    JoinNoMeta(l);
    JoinNoMeta(r);
    var s := Join(l + [STARS] + r);
    var head := Join(l) + "/" + STARS + "/";
    assert s == head + Join(r);
    assert s[0] != '*' by {
      if Join(l) != "" {
        assert s[0] == Join(l)[0];
      } else {
        assert s[0] == '/';
      }
    }
    assert s[|s| - 1] != '*' by {
      if Join(r) != "" {
        assert s[|s| - 1] == Join(r)[|Join(r)| - 1];
      } else {
        assert s[|s| - 1] == head[|head| - 1] == '/';
      }
    }
    StarChars(s);
  }

  lemma {:induction false} SameLengthAround(glob: Glob, l: seq<string>, r: seq<string>, parts: seq<string>)
    requires LiteralGlob(glob) && Literal(l) && |l| + 1 + |r| == |parts|
    ensures SameLengthMatch(glob, l + [STARS] + r, parts) <==> l <= parts
  {
    var segs := l + [STARS] + r;
    if l != [] {
      assert segs[1..] == l[1..] + [STARS] + r;
      SameLengthAround(glob, l[1..], r, parts[1..]);
      assert l == [l[0]] + l[1..] && parts == [parts[0]] + parts[1..];
    }
  }

  /** With `**` in the middle the matcher is exact, except that a path with as many components as the pattern has
      segments is taken as soon as it begins right: what follows the `**` is then not looked at. */
  lemma MiddleStarsIff(glob: Glob, l: seq<string>, r: seq<string>, full: string, parts: seq<string>)
    requires LiteralGlob(glob) && Literal(l) && Literal(r) && l != [] && r != []
    ensures var segs := l + [STARS] + r;
            SegmentsMatch(glob, segs, full, parts) <==>
              Aligns(glob, segs, parts) || (|segs| == |parts| && l <= parts)
  {
    var segs := l + [STARS] + r;
    MiddleJoin(l, r);
    AlignsAround(glob, l, r, parts);
    if |segs| == |parts| {
      SameLengthAround(glob, l, r, parts);
    }
  }

  // ---------------------------------------------------------------- together

  lemma {:induction false} AlignsSameLength(glob: Glob, segs: seq<string>, parts: seq<string>)
    requires |segs| == |parts| && Aligns(glob, segs, parts)
    ensures SameLengthMatch(glob, segs, parts)
  {
    if segs != [] && segs[0] != STARS {
      AlignsPlain(glob, segs, parts);
      AlignsSameLength(glob, segs[1..], parts[1..]);
    }
  }

  /** Whatever its segments, and however many `**` it has, a pattern that neither begins nor ends with a `**` among
      others never misses a path that it stands for. */
  lemma InnerStarsNeverUnderMatch(glob: Glob, segs: seq<string>, full: string, parts: seq<string>)
    requires segs != [] && !HasPrefix(Join(segs), STARS + "/") && !HasSuffix(Join(segs), "/" + STARS)
    requires Aligns(glob, segs, parts)
    ensures SegmentsMatch(glob, segs, full, parts)
  {
    if |segs| == |parts| {
      AlignsSameLength(glob, segs, parts);
    }
  }

  /** For literal patterns with at most one `**` the matcher never misses a path the pattern stands for. */
  lemma NeverUnderMatches(glob: Glob, l: seq<string>, stars: bool, r: seq<string>, full: string)
    requires LiteralGlob(glob) && Literal(l) && Literal(r)
    requires var segs := l + (if stars then [STARS] else []) + r; segs != [] && Aligns(glob, segs, Split(full))
    ensures var segs := l + (if stars then [STARS] else []) + r; SegmentsMatch(glob, segs, full, Split(full))
  {
    if !stars {
      assert l + [] + r == l + r;
      PlainIff(glob, l + r, full, Split(full));
    } else if l == [] && r == [] {
      assert l + [STARS] + r == [STARS];
    } else if l == [] {
      assert l + [STARS] + r == [STARS] + r;
      LeadingStarsIff(glob, r, full);
      var y := Join(r);
      if HasSuffix(full, "/" + y) {
        assert full[|full| - |y|..] == full[|full| - |y| - 1..][1..] == y;
      }
    } else if r == [] {
      assert l + [STARS] + r == l + [STARS];
      TrailingStarsIff(glob, l, full);
    } else {
      MiddleStarsIff(glob, l, r, full, Split(full));
    }
  }

  // ---------------------------------------------------------------- `**` at both ends

  /** Every segment matches its component, from component `i` on. */
  predicate GlobsAt(glob: Glob, m: seq<string>, parts: seq<string>, i: nat) {
    i + |m| <= |parts| && forall j :: 0 <= j < |m| ==> glob(m[j], parts[i + j])
  }

  predicate Starless(m: seq<string>) {
    m != [] && forall j :: 0 <= j < |m| ==> m[j] != STARS
  }

  lemma {:induction false} AlignsHead(glob: Glob, m: seq<string>, parts: seq<string>)
    requires forall j :: 0 <= j < |m| ==> m[j] != STARS
    ensures Aligns(glob, m + [STARS], parts) <==> GlobsAt(glob, m, parts, 0)
  {
    if m == [] {
      assert m + [STARS] == [STARS];
      LastStars(glob, [STARS], parts);
    } else {
      AlignsPlain(glob, m + [STARS], parts);
      assert (m + [STARS])[1..] == m[1..] + [STARS];
      if parts != [] {
        AlignsHead(glob, m[1..], parts[1..]);
        assert GlobsAt(glob, m, parts, 0) ==> GlobsAt(glob, m[1..], parts[1..], 0);
        assert forall j :: 1 <= j < |m| ==> m[j] == m[1..][j - 1];
        assert forall j :: 1 <= j < |parts| ==> parts[j] == parts[1..][j - 1];
      }
    }
  }

  /** With `**` at both ends a pattern stands for the paths that have what is between them somewhere inside. */
  lemma AlignsWithin(glob: Glob, m: seq<string>, parts: seq<string>)
    requires Starless(m)
    ensures Aligns(glob, [STARS] + m + [STARS], parts) <==> exists i :: 0 <= i <= |parts| && GlobsAt(glob, m, parts, i)
  {
    var segs := [STARS] + m + [STARS];
    assert segs[1..] == m + [STARS];
    AlignsStars(glob, segs, parts);
    forall k | 0 <= k <= |parts|
      ensures Aligns(glob, m + [STARS], parts[k..]) <==> GlobsAt(glob, m, parts, k)
    {
      AlignsHead(glob, m, parts[k..]);
      assert forall j :: 0 <= j && k + j < |parts| ==> parts[k..][j] == parts[k + j];
    }
  }

  lemma BothEndsJoin(m: seq<string>)
    requires m != []
    ensures Join([STARS] + m + [STARS]) == STARS + "/" + (Join(m) + "/**")
  {
    assert [STARS] + m + [STARS] == [STARS] + (m + [STARS]);
    JoinAppend([STARS], m + [STARS]);
    JoinAppend(m, [STARS]);
    assert "/" + STARS == "/**";
  }

  /** The matcher takes the leading `**` first and compares the rest, trailing stars and all, with the end of the
      path. So it misses a path that such a pattern stands for exactly when what is between the `**` occurs in it
      while the path does not literally end in the rest and its last component is not globbed by it. */
  lemma BothEndsIff(glob: Glob, m: seq<string>, full: string)
    requires Starless(m)
    ensures var segs, rest, parts := [STARS] + m + [STARS], Join(m) + "/**", Split(full);
            && (SegmentsMatch(glob, segs, full, parts) <==> HasSuffix(full, rest) || glob(rest, Base(full)))
            && (Aligns(glob, segs, parts) && !SegmentsMatch(glob, segs, full, parts) <==>
                  && (exists i :: 0 <= i <= |parts| && GlobsAt(glob, m, parts, i))
                  && !HasSuffix(full, rest) && !glob(rest, Base(full)))
  {
    BothEndsJoin(m);
    AlignsWithin(glob, m, Split(full));
    var joined := STARS + "/" + (Join(m) + "/**");
    assert joined[3..] == Join(m) + "/**";
  }

  // ---------------------------------------------------------------- `**` at one end, any segments

  /** The branch for a trailing `**`. */
  lemma TrailingMatch(glob: Glob, l: seq<string>, full: string, parts: seq<string>)
    requires Starless(l) && Parts(l)
    ensures var dir := Join(l);
            SegmentsMatch(glob, l + [STARS], full, parts) <==>
              full == dir || HasPrefix(full, dir + "/") || dir in parts || Contains(full, "/" + dir + "/")
  {
    StarsInJoin(l);
  }

  /** With a trailing `**` after any segments, a path is missed exactly when its leading components are globbed by them
      while the segments, taken literally, are not found in it. */
  lemma TrailingAnyIff(glob: Glob, l: seq<string>, full: string)
    requires Starless(l) && Parts(l)
    ensures var segs, dir, parts := l + [STARS], Join(l), Split(full);
            && (Aligns(glob, segs, parts) <==> GlobsAt(glob, l, parts, 0))
            && (SegmentsMatch(glob, segs, full, parts) <==>
                  full == dir || HasPrefix(full, dir + "/") || dir in parts || Contains(full, "/" + dir + "/"))
            && (Aligns(glob, segs, parts) && !SegmentsMatch(glob, segs, full, parts) <==>
                  GlobsAt(glob, l, parts, 0)
                  && full != dir && !HasPrefix(full, dir + "/") && dir !in parts && !Contains(full, "/" + dir + "/"))
  {
    TrailingMatch(glob, l, full, Split(full));
    AlignsHead(glob, l, Split(full));
  }

  lemma {:induction false} AlignsStarless(glob: Glob, r: seq<string>, parts: seq<string>)
    requires forall j :: 0 <= j < |r| ==> r[j] != STARS
    ensures Aligns(glob, r, parts) <==> |r| == |parts| && GlobsAt(glob, r, parts, 0)
  {
    if r == [] {
      AlignsNil(glob, parts);
    } else {
      AlignsPlain(glob, r, parts);
      if parts != [] {
        AlignsStarless(glob, r[1..], parts[1..]);
        assert forall j :: 1 <= j < |r| ==> r[j] == r[1..][j - 1];
        assert forall j :: 1 <= j < |parts| ==> parts[j] == parts[1..][j - 1];
        assert GlobsAt(glob, r, parts, 0) ==> GlobsAt(glob, r[1..], parts[1..], 0);
      }
    }
  }

  lemma AlignsAtEnd(glob: Glob, r: seq<string>, parts: seq<string>)
    requires Starless(r)
    ensures Aligns(glob, [STARS] + r, parts) <==> |r| <= |parts| && GlobsAt(glob, r, parts, |parts| - |r|)
  {
    assert ([STARS] + r)[1..] == r;
    AlignsStars(glob, [STARS] + r, parts);
    forall k | 0 <= k <= |parts|
      ensures Aligns(glob, r, parts[k..]) <==> |r| == |parts| - k && GlobsAt(glob, r, parts, k)
    {
      AlignsStarless(glob, r, parts[k..]);
      assert forall j :: 0 <= j && k + j < |parts| ==> parts[k..][j] == parts[k + j];
    }
  }

  /** With a leading `**` before any segments, a path is missed exactly when its last components are globbed by them
      while it does not literally end in them and its last component is not globbed by them as a whole. */
  lemma LeadingAnyIff(glob: Glob, r: seq<string>, full: string)
    requires Starless(r)
    ensures var segs, rest, parts := [STARS] + r, Join(r), Split(full);
            && (Aligns(glob, segs, parts) <==> |r| <= |parts| && GlobsAt(glob, r, parts, |parts| - |r|))
            && (SegmentsMatch(glob, segs, full, parts) <==> HasSuffix(full, rest) || glob(rest, Base(full)))
            && (Aligns(glob, segs, parts) && !SegmentsMatch(glob, segs, full, parts) <==>
                  |r| <= |parts| && GlobsAt(glob, r, parts, |parts| - |r|)
                  && !HasSuffix(full, rest) && !glob(rest, Base(full)))
  {
    AlignsAtEnd(glob, r, Split(full));
    JoinAppend([STARS], r);
    assert Join([STARS] + r) == STARS + "/" + Join(r);
    assert (STARS + "/" + Join(r))[3..] == Join(r);
  }

  // ---------------------------------------------------------------- any segments, `**` at neither end

  /** No `**` up to and including segment `j`. */
  predicate BeforeStars(segs: seq<string>, j: nat)
    requires j < |segs|
  {
    forall i :: 0 <= i <= j ==> segs[i] != STARS
  }

  lemma {:induction false} SameLengthIff(glob: Glob, segs: seq<string>, parts: seq<string>)
    requires |segs| == |parts|
    ensures SameLengthMatch(glob, segs, parts) <==>
              forall j :: 0 <= j < |segs| && BeforeStars(segs, j) ==> glob(segs[j], parts[j])
  {
    if segs != [] {
      if segs[0] == STARS {
        assert forall j :: 0 <= j < |segs| ==> !BeforeStars(segs, j);
      } else {
        SameLengthIff(glob, segs[1..], parts[1..]);
        BeforeStarsTail(segs);
        assert BeforeStars(segs, 0);
        assert forall j :: 1 <= j < |segs| ==> segs[j] == segs[1..][j - 1] && parts[j] == parts[1..][j - 1];
      }
    }
  }

  lemma BeforeStarsTail(segs: seq<string>)
    requires segs != [] && segs[0] != STARS
    ensures forall j :: 0 <= j < |segs| - 1 ==> (BeforeStars(segs[1..], j) <==> BeforeStars(segs, j + 1))
  {
    assert forall j :: 1 <= j < |segs| ==> segs[j] == segs[1..][j - 1];
  }

  /** For any glob and any segments with a `**` at neither end: a path of another length is taken exactly when it is
      what the pattern stands for, one of the same length exactly when it is globbed up to the first `**`. */
  lemma InnerStarsIff(glob: Glob, segs: seq<string>, full: string, parts: seq<string>)
    requires Parts(segs) && segs[0] != STARS && segs[|segs| - 1] != STARS
    ensures SegmentsMatch(glob, segs, full, parts) <==>
              if |segs| != |parts| then Aligns(glob, segs, parts)
              else forall j :: 0 <= j < |segs| && BeforeStars(segs, j) ==> glob(segs[j], parts[j])
  {
    EndsNotStars(segs);
    if |segs| == |parts| {
      SameLengthIff(glob, segs, parts);
    }
  }

  lemma NoStarsInFront(segs: seq<string>)
    requires Parts(segs) && segs[0] != STARS
    ensures !HasPrefix(Join(segs), STARS + "/")
  {
    SplitOfJoin(segs);
    if HasPrefix(Join(segs), STARS + "/") {
      SplitOfStarsSlash(Join(segs));
    }
  }

  lemma SplitOfSlashStars(s: string)
    requires HasSuffix(s, "/" + STARS)
    ensures Split(s)[|Split(s)| - 1] == STARS
  {
    var x := s[..|s| - 3];
    assert s == x + ("/" + STARS) == x + "/" + STARS;
    SplitAtSlash(x, STARS);
    SplitPlain(STARS);
  }

  lemma NoStarsBehind(segs: seq<string>)
    requires Parts(segs) && segs[|segs| - 1] != STARS
    ensures !HasSuffix(Join(segs), "/" + STARS)
  {
    SplitOfJoin(segs);
    if HasSuffix(Join(segs), "/" + STARS) {
      SplitOfSlashStars(Join(segs));
    }
  }

  lemma EndsNotStars(segs: seq<string>)
    requires Parts(segs) && segs[0] != STARS && segs[|segs| - 1] != STARS
    ensures var s := Join(segs); s != STARS && !HasPrefix(s, STARS + "/") && !HasSuffix(s, "/" + STARS)
  {
    SplitOfJoin(segs);
    SplitPlain(STARS);
    NoStarsInFront(segs);
    NoStarsBehind(segs);
  }

  /** An example: `x/a/y` has an `a` inside, but does not end as the pattern does. */
  lemma BothEndsUnderMatch(glob: Glob)
    requires LiteralGlob(glob) && !glob("a/**", "y")
    ensures var segs := [STARS, "a", STARS];
            Aligns(glob, segs, ["x", "a", "y"]) && !SegmentsMatch(glob, segs, "x/a/y", ["x", "a", "y"])
  {
    var m, parts := ["a"], ["x", "a", "y"];
    assert [STARS] + m + [STARS] == [STARS, "a", STARS];
    assert GlobsAt(glob, m, parts, 1);
    BothEndsJoin(m);
    AlignsWithin(glob, m, parts);
    assert (STARS + "/" + (Join(m) + "/**"))[3..] == "a/**";
    BaseOfLast();
    assert "x/a/y"[1..] == "/a/y";
  }

  lemma BaseOfLast()
    ensures Base("x/a/y") == "y"
  {
    SplitPlain("y");
    SplitAtSlash("x/a", "y");
    assert "x/a" + "/" + "y" == "x/a/y";
    assert TrimSlashes("x/a/y") == "x/a/y";
  }
}
