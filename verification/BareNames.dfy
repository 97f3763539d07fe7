/** Ignore lists that have bare names among their entries: when skipping directories is harmless for them. */
module BareNames {
  import opened Paths
  import opened Ignore
  import opened IgnoreExact
  import opened Walk
  import opened Pruning

  /** A name without slash or metacharacters, matched against the last component. */
  predicate IsBareName(p: Pattern) {
    !p.negate && !p.dirOnly && |p.segments| == 1 && NoMeta(p.segments[0]) && CleanName(p.segments[0])
  }

  predicate IsSimple(p: Pattern) {
    IsBareName(p) || IsDirPattern(p) || IsTreePattern(p)
  }

  // `name/**`
  function Inside(name: string): Pattern {
    Pattern(false, [name, STARS], false)
  }

  lemma BareMatches(glob: Glob, p: Pattern, at: seq<string>)
    requires LiteralGlob(glob) && IsBareName(p) && Clean(at) && at != []
    ensures Matches(glob, p, Join(at)) <==> at[|at| - 1] == p.segments[0]
  {
    var n, path := p.segments[0], Join(at);
    NoStars(n);
    BaseOfJoin(at);
    SplitOfJoin(at);
    SplitPlain(n);
    assert Matches(glob, p, path) <==> Base(path) == n || path == n;
  }

  lemma BareMatchesSlash(glob: Glob, p: Pattern, d: seq<string>)
    requires LiteralGlob(glob) && IsBareName(p) && Clean(d) && d != []
    ensures Matches(glob, p, Join(d) + "/") ==> d[|d| - 1] == p.segments[0]
  {
    var n, path := p.segments[0], Join(d) + "/";
    NoStars(n);
    BaseOfJoin(d);
    LastCharOfJoin(d);
    assert path[..|path| - 1] == Join(d) && path[|path| - 1] == '/';
    assert Base(path) == Base(Join(d));
    assert Matches(glob, p, path) <==> Base(path) == n || path == n;
  }

  lemma BaseOfStars(path: string)
    requires path != "" && path[|path| - 1] == '*' && Split(path)[|Split(path)| - 1] == STARS
    ensures Base(path) == STARS
  {
  }

  lemma BareMissesStars(glob: Glob, p: Pattern, d: seq<string>)
    requires LiteralGlob(glob) && IsBareName(p) && Clean(d) && d != []
    ensures !Matches(glob, p, Join(d) + "/**")
  {
    var n, path := p.segments[0], Join(d) + "/**";
    NoStars(n);
    SplitVariants(d);
    BaseOfStars(path);
    assert path[|path| - 1] == '*' == STARS[0];
    assert Matches(glob, p, path) <==> STARS == n || path == n;
  }

  /** Of the three tests of a directory, a bare name answers to the first two, by the directory's own name. */
  lemma BareMatchesDir(glob: Glob, p: Pattern, d: seq<string>)
    requires LiteralGlob(glob) && IsBareName(p) && Clean(d) && d != []
    requires Matches(glob, p, Join(d) + "/") || Matches(glob, p, Join(d) + "/**")
    ensures d[|d| - 1] == p.segments[0]
  {
    BareMatchesSlash(glob, p, d);
    BareMissesStars(glob, p, d);
  }

  lemma InsideIsTree(name: string)
    requires NoMeta(name) && CleanName(name)
    ensures IsTreePattern(Inside(name)) && Inside(name).segments[..1] == [name] && Join([name]) == name
  {
  }

  // With `name/**` beside it, everything below a directory of that name is ignored by its own path as well.
  lemma InsideMatches(glob: Glob, name: string, d: seq<string>, x: seq<string>)
    requires LiteralGlob(glob) && NoMeta(name) && CleanName(name)
    requires Clean(d) && d != [] && Clean(x) && x != [] && d[|d| - 1] == name
    ensures Matches(glob, Inside(name), Join(d + x))
  {
    InsideIsTree(name);
    SplitOfJoin(d + x);
    assert (d + x)[|d| - 1] == name;
    TreeMatchIff(glob, Inside(name), Join(d + x));
  }

  lemma BareRootStays(glob: Glob, p: Pattern)
    requires LiteralGlob(glob) && IsBareName(p)
    ensures !Matches(glob, p, "/**")
  {
    NoStars(p.segments[0]);
    SplitAtSlash("", STARS);
    SplitPlain(STARS);
    assert "" + "/" + STARS == "/**";
    assert Base("/**") == STARS by { assert "/**"[2] == '*'; }
    assert '*' in STARS by { assert STARS[0] == '*'; }
    assert '/' in "/**" by { assert "/**"[0] == '/'; }
  }

  lemma SimpleRootStays(glob: Glob, p: Pattern)
    requires LiteralGlob(glob) && IsSimple(p)
    ensures !Matches(glob, p, "/**")
  {
    if IsBareName(p) {
      BareRootStays(glob, p);
    } else {
      RootStays(glob, p);
    }
  }

  /** A pattern hits one of the three tests of a directory; then some pattern ignores what is below it. */
  lemma SomethingMatches(glob: Glob, ps: seq<Pattern>, i: nat, d: seq<string>, x: seq<string>) returns (j: nat)
    requires LiteralGlob(glob) && i < |ps| && IsSimple(ps[i]) && (IsBareName(ps[i]) ==> Inside(ps[i].segments[0]) in ps)
    requires Clean(d) && d != [] && Clean(x) && x != []
    requires var s := Join(d); Matches(glob, ps[i], s) || Matches(glob, ps[i], s + "/") || Matches(glob, ps[i], s + "/**")
    ensures j < |ps| && Matches(glob, ps[j], Join(d + x))
  {
    if IsBareName(ps[i]) {
      var name := ps[i].segments[0];
      if Matches(glob, ps[i], Join(d)) {
        BareMatches(glob, ps[i], d);
      } else {
        BareMatchesDir(glob, ps[i], d);
      }
      j :| 0 <= j < |ps| && ps[j] == Inside(name);
      InsideMatches(glob, name, d, x);
    } else {
      j := i;
      PatternClosed(glob, ps[i], d, x);
    }
  }

  lemma SimpleListClosed(glob: Glob, ps: seq<Pattern>, temp: string -> bool)
    requires LiteralGlob(glob) && forall i :: 0 <= i < |ps| ==> IsSimple(ps[i])
    requires forall i :: 0 <= i < |ps| && IsBareName(ps[i]) ==> Inside(ps[i].segments[0]) in ps
    ensures Closed(SkipsOf(glob, ps, temp))
  {
    var k := SkipsOf(glob, ps, temp);
    forall d: seq<string>, x: seq<string> | Clean(d) && Clean(x) && x != [] && Pruned(k, Join(d))
      ensures !Kept(k, Join(d + x))
    {
      if d == [] {
        RootNotIgnored(glob, ps);
      } else {
        var i := HitBy(glob, ps, d);
        var j := SomethingMatches(glob, ps, i, d, x);
        JoinAppend(d, x);
        IgnoredIffSome(glob, ps, Join(d + x));
      }
    }
  }

  lemma RootNotIgnored(glob: Glob, ps: seq<Pattern>)
    requires LiteralGlob(glob) && forall i :: 0 <= i < |ps| ==> IsSimple(ps[i])
    ensures !Ignored(glob, ps, "") && !Ignored(glob, ps, "/**") && Join([]) + "/**" == "/**"
  {
    IgnoredIffSome(glob, ps, "/**");
    forall i | 0 <= i < |ps|
      ensures !Matches(glob, ps[i], "/**")
    {
      SimpleRootStays(glob, ps[i]);
    }
  }

  /** The pattern that makes the walk skip a directory. */
  lemma HitBy(glob: Glob, ps: seq<Pattern>, d: seq<string>) returns (i: nat)
    requires forall i :: 0 <= i < |ps| ==> IsSimple(ps[i])
    requires Clean(d) && d != []
    requires var s := Join(d); Ignored(glob, ps, s) || Ignored(glob, ps, s + "/") || Ignored(glob, ps, s + "/**")
    ensures i < |ps|
    ensures var s := Join(d); Matches(glob, ps[i], s) || Matches(glob, ps[i], s + "/") || Matches(glob, ps[i], s + "/**")
  {
    var s := Join(d);
    LastCharOfJoin(d);
    IgnoredIffSome(glob, ps, s);
    IgnoredIffSome(glob, ps, s + "/");
    IgnoredIffSome(glob, ps, s + "/**");
    i :| 0 <= i < |ps| && (Matches(glob, ps[i], s) || Matches(glob, ps[i], s + "/") || Matches(glob, ps[i], s + "/**"));
  }

  // ---------------------------------------------------------------- a name that no pattern has

  function Longest(segs: seq<string>): (n: nat)
    ensures forall i :: 0 <= i < |segs| ==> |segs[i]| <= n
  {
    if segs == [] then 0
    else
      var n := Longest(segs[1..]);
      assert forall i :: 1 <= i < |segs| ==> segs[i] == segs[1..][i - 1];
      if |segs[0]| > n then |segs[0]| else n
  }

  function LongestOf(ps: seq<Pattern>): (n: nat)
    ensures forall i :: 0 <= i < |ps| ==> Longest(ps[i].segments) <= n
  {
    if ps == [] then 0
    else
      var n := LongestOf(ps[1..]);
      assert forall i :: 1 <= i < |ps| ==> ps[i] == ps[1..][i - 1];
      if Longest(ps[0].segments) > n then Longest(ps[0].segments) else n
  }

  function Long(n: nat): (s: string)
    ensures |s| == n + 1 && forall i :: 0 <= i < |s| ==> s[i] == 'a'
  {
    seq(n + 1, _ => 'a')
  }

  lemma LongIsClean(n: nat)
    ensures CleanName(Long(n))
  {
  }

  lemma LongIsNotTemp(at: seq<string>, n: nat)
    requires Clean(at) && at != [] && at[|at| - 1] == Long(n)
    ensures !IsTempRel(Join(at))
  {
    BaseOfJoin(at);
    LongNameIsNotTemp(Lower(Long(n)));
  }

  lemma LongNameIsNotTemp(low: string)
    requires low != "" && forall i :: 0 <= i < |low| ==> low[i] == 'a'
    ensures !HasPrefix(low, ".~") && !HasPrefix(low, "~$")
    ensures !HasSuffix(low, ".tmp") && !HasSuffix(low, ".sps.tmp") && !HasSuffix(low, ".swp") && !HasSuffix(low, ".swo")
    ensures !HasSuffix(low, ".partial")
  {
    assert ".~"[0] == '.' && "~$"[0] == '~';
    NoSuffix(low, ".tmp");
    NoSuffix(low, ".sps.tmp");
    NoSuffix(low, ".swp");
    NoSuffix(low, ".swo");
    NoSuffix(low, ".partial");
  }

  lemma NoSuffix(s: string, suffix: string)
    requires suffix != "" && suffix[0] == '.' && forall i :: 0 <= i < |s| ==> s[i] == 'a'
    ensures !HasSuffix(s, suffix)
  {
    if |suffix| <= |s| {
      assert s[|s| - |suffix|..][0] == 'a' != suffix[0];
    }
  }

  /** A file below a directory of the name, both elsewhere and named as nothing in the list. */
  function Hidden(name: string, n: nat): seq<string> {
    [Long(n), name] + [Long(n)]
  }

  lemma HiddenJoin(name: string, n: nat)
    requires CleanName(name)
    ensures Clean(Hidden(name, n)) && Join(Hidden(name, n)) == Long(n) + "/" + name + "/" + Long(n)
    ensures Split(Join(Hidden(name, n))) == Hidden(name, n)
  {
    LongIsClean(n);
    SplitOfJoin(Hidden(name, n));
    var at := Hidden(name, n);
    assert at[1..] == [name, Long(n)] && at[1..][1..] == [Long(n)];
    assert Join(at[1..]) == name + "/" + Long(n);
    assert Join(at) == Long(n) + "/" + (name + "/" + Long(n));
  }

  /** The slashes of such a path leave room for one name between two of them. */
  lemma BetweenSlashes(name: string, n: nat, dir: string)
    requires CleanName(name) && Contains(Long(n) + "/" + name + "/" + Long(n), "/" + dir + "/")
    ensures dir == name
  {
    var f, mark := Long(n) + "/" + name + "/" + Long(n), "/" + dir + "/";
    var i :| 0 <= i <= |f| && OccursAt(f, mark, i);
    assert f[i] == f[i..i + |mark|][0] == '/';
    assert f[i + |dir| + 1] == f[i..i + |mark|][|dir| + 1] == '/';
    assert forall j :: 0 <= j < |f| && f[j] == '/' ==> j == n + 1 || j == n + 2 + |name|;
    assert i == n + 1 && i + |dir| + 1 == n + 2 + |name|;
    assert dir == f[i..i + |mark|][1..1 + |dir|] == f[i + 1..i + 1 + |dir|] == name;
  }

  // Of simple patterns only `name/**` matches it.
  lemma OnlyInsideMatches(glob: Glob, p: Pattern, name: string, n: nat)
    requires LiteralGlob(glob) && IsSimple(p) && Longest(p.segments) <= n && CleanName(name)
    requires Matches(glob, p, Join(Hidden(name, n)))
    ensures p == Inside(name)
  {
    HiddenJoin(name, n);
    var at := Hidden(name, n);
    if IsBareName(p) {
      BareMatches(glob, p, at);
    } else if IsDirPattern(p) {
      DirMatchIff(glob, p, Join(at));
      HeadsDiffer(p.segments, at);
    } else {
      var l := p.segments[..|p.segments| - 1];
      TreeMatchIff(glob, p, Join(at));
      assert l[0] == p.segments[0];
      HeadsDiffer(l, at);
      OneSegment(l, name, n);
      assert p.segments == l + [STARS];
    }
  }

  lemma HeadsDiffer(a: seq<string>, b: seq<string>)
    requires a != [] && b != [] && a[0] != b[0]
    ensures !(a <= b)
  {
  }

  lemma OneSegment(l: seq<string>, name: string, n: nat)
    requires PlainDir(l) && CleanName(name) && |l[0]| <= n
    requires Join(l) in Hidden(name, n) || Contains(Long(n) + "/" + name + "/" + Long(n), "/" + Join(l) + "/")
    ensures l == [name]
  {
    SplitOfJoin(l);
    LongIsClean(n);
    if Join(l) in Hidden(name, n) {
      assert '/' !in Join(l);
      SplitPlain(Join(l));
      assert l[0] == Join(l);
    } else {
      BetweenSlashes(name, n, Join(l));
      SplitPlain(name);
    }
  }

  lemma BareNamePrunes(glob: Glob, ps: seq<Pattern>, b: nat, d: seq<string>)
    requires LiteralGlob(glob) && forall i :: 0 <= i < |ps| ==> IsSimple(ps[i])
    requires b < |ps| && IsBareName(ps[b]) && Clean(d) && d != [] && d[|d| - 1] == ps[b].segments[0]
    ensures Ignored(glob, ps, Join(d))
  {
    BareMatches(glob, ps[b], d);
    LastCharOfJoin(d);
    IgnoredIffSome(glob, ps, Join(d));
  }

  lemma NothingMatchesHidden(glob: Glob, ps: seq<Pattern>, name: string, i: nat)
    requires LiteralGlob(glob) && i < |ps| && IsSimple(ps[i]) && CleanName(name) && Inside(name) !in ps
    ensures !Matches(glob, ps[i], Join(Hidden(name, LongestOf(ps))))
  {
    if Matches(glob, ps[i], Join(Hidden(name, LongestOf(ps)))) {
      OnlyInsideMatches(glob, ps[i], name, LongestOf(ps));
    }
  }

  lemma HiddenIsKept(glob: Glob, ps: seq<Pattern>, name: string)
    requires LiteralGlob(glob) && forall i :: 0 <= i < |ps| ==> IsSimple(ps[i])
    requires CleanName(name) && Inside(name) !in ps
    ensures !Ignored(glob, ps, Join(Hidden(name, LongestOf(ps))))
  {
    var f := Join(Hidden(name, LongestOf(ps)));
    HiddenJoin(name, LongestOf(ps));
    LastCharOfJoin(Hidden(name, LongestOf(ps)));
    IgnoredIffSome(glob, ps, f);
    forall i | 0 <= i < |ps|
      ensures !Matches(glob, ps[i], f)
    {
      NothingMatchesHidden(glob, ps, name, i);
    }
  }

  // Without `name/**` the walk of some tree misses a file below a directory of that name.
  lemma BareNameNotClosed(glob: Glob, ps: seq<Pattern>, b: nat)
    requires LiteralGlob(glob) && forall i :: 0 <= i < |ps| ==> IsSimple(ps[i])
    requires b < |ps| && IsBareName(ps[b]) && Inside(ps[b].segments[0]) !in ps
    ensures !Closed(SkipsOf(glob, ps, rel => IsTempRel(rel)))
  {
    var k := SkipsOf(glob, ps, rel => IsTempRel(rel));
    var name, n := ps[b].segments[0], LongestOf(ps);
    var d, x := [Long(n), name], [Long(n)];
    LongIsClean(n);
    BareNamePrunes(glob, ps, b, d);
    HiddenIsKept(glob, ps, name);
    HiddenJoin(name, n);
    LongIsNotTemp(Hidden(name, n), n);
    assert Pruned(k, Join(d)) && Kept(k, Join(d + x));
  }

  // For lists of bare names, `dir/` and `dir/**`: the manifest walk is the plain filter in every tree exactly when the
  // list has `name/**` beside every bare name.
  lemma BareNamesPruneFaithfullyIff(glob: Glob, ps: seq<Pattern>)
    requires LiteralGlob(glob) && forall i :: 0 <= i < |ps| ==> IsSimple(ps[i])
    ensures var k := SkipsOf(glob, ps, rel => IsTempRel(rel));
            (forall tree: Node :: tree.Dir? && CleanTree(tree) ==> Walk.Walk(k, [], tree) == Flat(k, [], tree))
            <==> forall i :: 0 <= i < |ps| && IsBareName(ps[i]) ==> Inside(ps[i].segments[0]) in ps
  {
    PrunedWalkIff(SkipsOf(glob, ps, rel => IsTempRel(rel)));
    if b :| 0 <= b < |ps| && IsBareName(ps[b]) && Inside(ps[b].segments[0]) !in ps {
      BareNameNotClosed(glob, ps, b);
    } else {
      SimpleListClosed(glob, ps, rel => IsTempRel(rel));
    }
  }
}
