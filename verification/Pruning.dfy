/** The ignore list meets the tree walk: pattern lists for which skipping directories is harmless, from the raw
    strings of the configuration on; and the test for temporary names. */
module Pruning {
  import opened Paths
  import opened Ignore
  import opened IgnoreExact
  import opened Walk

  // ---------------------------------------------------------------- parsing

  /** The characters `strings.TrimSpace` removes. */
  predicate IsSpace(c: char) {
    var n := c as int;
    || 0x9 <= n <= 0xD || n == 0x20 || n == 0x85 || n == 0xA0 || n == 0x1680 || 0x2000 <= n <= 0x200A
    || n == 0x2028 || n == 0x2029 || n == 0x202F || n == 0x205F || n == 0x3000
  }

  function TrimLeft(s: string): string {
    if s != "" && IsSpace(s[0]) then TrimLeft(s[1..]) else s
  }

  function TrimRight(s: string): string {
    if s != "" && IsSpace(s[|s| - 1]) then TrimRight(s[..|s| - 1]) else s
  }

  function ParsePattern(raw: string): Pattern {
    ParseTrimmed(TrimRight(TrimLeft(raw)))
  }

  function ParseTrimmed(s: string): Pattern {
    if s == "" then Pattern(false, [], false)
    else
      var negate := HasPrefix(s, "!");
      var s1 := if negate then s[1..] else s;
      var dirOnly := HasSuffix(s1, "/");
      var s2 := if dirOnly then s1[..|s1| - 1] else s1;
      Pattern(negate, SegmentsOf(s2), dirOnly)
  }

  function SegmentsOf(s: string): seq<string> {
    if '/' in s then Split(s) else [s]
  }

  lemma SegmentsOfIsSplit(s: string)
    ensures SegmentsOf(s) == Split(s)
  {
    if '/' !in s {
      SplitPlain(s);
    }
  }

  /** A directory given by its components: proper names without metacharacters. */
  predicate PlainDir(segs: seq<string>) {
    segs != [] && Literal(segs) && Clean(segs)
  }

  /** Nothing of it would be taken for whitespace to trim or for a negation. */
  predicate Unadorned(dir: string) {
    dir != "" && !IsSpace(dir[0]) && dir[0] != '!'
  }

  lemma TrimsNothing(s: string)
    requires s != "" && !IsSpace(s[0]) && !IsSpace(s[|s| - 1])
    ensures TrimRight(TrimLeft(s)) == s
  {
  }

  lemma ParseBody(s: string)
    requires s != "" && !IsSpace(s[0]) && s[0] != '!' && !IsSpace(s[|s| - 1])
    ensures var dirOnly := HasSuffix(s, "/");
            ParsePattern(s) == Pattern(false, Split(if dirOnly then s[..|s| - 1] else s), dirOnly)
  {
    TrimsNothing(s);
    assert !HasPrefix(s, "!");
    SegmentsOfIsSplit(if HasSuffix(s, "/") then s[..|s| - 1] else s);
  }

  predicate Spaces(s: string) {
    forall i :: 0 <= i < |s| ==> IsSpace(s[i])
  }

  lemma {:induction false} TrimLeftSkips(before: string, s: string)
    requires Spaces(before) && s != "" && !IsSpace(s[0])
    ensures TrimLeft(before + s) == s
    decreases |before|
  {
    if before == "" {
      assert before + s == s;
    } else {
      assert (before + s)[1..] == before[1..] + s;
      TrimLeftSkips(before[1..], s);
    }
  }

  lemma {:induction false} TrimRightSkips(s: string, after: string)
    requires Spaces(after) && s != "" && !IsSpace(s[|s| - 1])
    ensures TrimRight(s + after) == s
    decreases |after|
  {
    if after == "" {
      assert s + after == s;
    } else {
      assert (s + after)[..|s + after| - 1] == s + after[..|after| - 1];
      TrimRightSkips(s, after[..|after| - 1]);
    }
  }

  lemma Trimmed(before: string, body: string, after: string)
    requires Spaces(before) && Spaces(after) && body != "" && !IsSpace(body[0]) && !IsSpace(body[|body| - 1])
    ensures TrimRight(TrimLeft(before + body + after)) == body
  {
    assert before + body + after == before + (body + after);
    TrimLeftSkips(before, body + after);
    TrimRightSkips(body, after);
  }

  /** How a pattern is written down. */
  function Written(p: Pattern): string {
    (if p.negate then "!" else "") + Join(p.segments) + if p.dirOnly then "/" else ""
  }

  /** It begins and ends with something that is neither a space nor a mark of its own. */
  predicate Plainly(p: Pattern) {
    var s := Written(p);
    && Parts(p.segments) && s != "" && !IsSpace(s[0]) && !IsSpace(s[|s| - 1])
    && (!p.negate ==> s[0] != '!') && (!p.dirOnly ==> s[|s| - 1] != '/' || Join(p.segments) == "")
  }

  /** The marks are taken off again, the slash first from behind. */
  lemma MarksOff(neg: bool, core: string, dirOnly: bool)
    ensures var s := (if neg then "!" else "") + core + (if dirOnly then "/" else "");
            && (neg ==> HasPrefix(s, "!") && s[1..] == core + if dirOnly then "/" else "")
            && (!neg ==> s == core + if dirOnly then "/" else "")
  {
    if neg {
      assert ("!" + core + if dirOnly then "/" else "")[1..] == core + if dirOnly then "/" else "";
    }
  }

  lemma SlashOff(core: string, dirOnly: bool)
    requires !dirOnly ==> core == "" || core[|core| - 1] != '/'
    ensures var s1 := core + (if dirOnly then "/" else "");
            && (HasSuffix(s1, "/") <==> dirOnly)
            && (dirOnly ==> s1[..|s1| - 1] == core)
            && (!dirOnly ==> s1 == core)
  {
    var s1 := core + if dirOnly then "/" else "";
    if dirOnly {
      assert s1[|s1| - 1..] == "/";
    } else {
      assert s1 == core;
      assert core != "" ==> core[|core| - 1..] == [core[|core| - 1]];
    }
  }

  lemma ParseMarks(neg: bool, core: string, dirOnly: bool)
    requires var s := (if neg then "!" else "") + core + (if dirOnly then "/" else "");
             s != "" && TrimRight(TrimLeft(s)) == s && (!neg ==> s[0] != '!')
    requires !dirOnly ==> core == "" || core[|core| - 1] != '/'
    ensures ParsePattern((if neg then "!" else "") + core + if dirOnly then "/" else "") == Pattern(neg, Split(core), dirOnly)
  {
    MarksOff(neg, core, dirOnly);
    SlashOff(core, dirOnly);
    SegmentsOfIsSplit(core);
  }

  /** The characters around a pattern do not count. */
  lemma ParseTrims(before: string, s: string, after: string)
    requires Spaces(before) && Spaces(after) && s != "" && !IsSpace(s[0]) && !IsSpace(s[|s| - 1])
    ensures ParsePattern(before + s + after) == ParsePattern(s) && TrimRight(TrimLeft(s)) == s
  {
    Trimmed(before, s, after);
    Trimmed("", s, "");
    assert "" + s + "" == s;
  }

  lemma NoTrailingSlash(p: Pattern)
    requires Plainly(p) && !p.dirOnly
    ensures var core := Join(p.segments); core == "" || core[|core| - 1] != '/'
  {
    var core := Join(p.segments);
    if core != "" {
      assert Written(p)[|Written(p)| - 1] == core[|core| - 1];
    }
  }

  /** A pattern that is written down, with any space around it, is read back: the mark of negation, the segments
      between the slashes, and the slash of a directory. */
  lemma ParseOfWritten(before: string, p: Pattern, after: string)
    requires Spaces(before) && Spaces(after) && Plainly(p)
    ensures ParsePattern(before + Written(p) + after) == p
  {
    ParseTrims(before, Written(p), after);
    if !p.dirOnly {
      NoTrailingSlash(p);
    }
    ParseMarks(p.negate, Join(p.segments), p.dirOnly);
    SplitOfJoin(p.segments);
  }

  lemma {:induction false} TrimBlank(s: string)
    requires Spaces(s)
    ensures TrimLeft(s) == ""
  {
    if s != "" {
      TrimBlank(s[1..]);
    }
  }

  /** A blank entry matches nothing. */
  lemma BlankMatchesNothing(glob: Glob, s: string, path: string)
    requires Spaces(s)
    ensures !Matches(glob, ParsePattern(s), path)
  {
    TrimBlank(s);
    assert ParsePattern(s).segments == [];
  }

  /** What the two forms of directory pattern parse to. */
  lemma ParseDirPatterns(segs: seq<string>)
    requires PlainDir(segs) && Unadorned(Join(segs))
    ensures ParsePattern(Join(segs) + "/") == Pattern(false, segs, true)
    ensures ParsePattern(Join(segs) + "/**") == Pattern(false, segs + [STARS], false)
  {
    var d := Join(segs);
    SplitOfJoin(segs);
    ParseBody(d + "/");
    assert (d + "/")[..|d|] == d;
    var t := d + "/**";
    ParseBody(t);
    assert t[|t| - 1..] == "*";
    SplitAtSlash(d, STARS);
    SplitPlain(STARS);
    assert t == d + "/" + STARS;
  }

  // ---------------------------------------------------------------- directory patterns

  // `dir/`
  predicate IsDirPattern(p: Pattern) {
    !p.negate && p.dirOnly && PlainDir(p.segments)
  }

  // `dir/**`
  predicate IsTreePattern(p: Pattern) {
    && !p.negate && !p.dirOnly && |p.segments| >= 2
    && p.segments[|p.segments| - 1] == STARS && PlainDir(p.segments[..|p.segments| - 1])
  }

  lemma NoStars(s: string)
    requires '*' !in s
    ensures !Contains(s, STARS)
  {
    forall i | 0 <= i <= |s|
      ensures !OccursAt(s, STARS, i)
    {
      assert i + 2 <= |s| ==> s[i..i + 2][0] == s[i];
    }
  }

  /** A directory pattern matches the paths that begin with its components. */
  lemma DirMatchIff(glob: Glob, p: Pattern, path: string)
    requires LiteralGlob(glob) && IsDirPattern(p)
    ensures Matches(glob, p, path) <==> p.segments <= Split(path)
  {
    var segs, parts := p.segments, Split(path);
    if |segs| == 1 {
      NoStars(segs[0]);
      BeginsWithPartsIff(path, segs);
    } else {
      forall i | 0 < i <= |parts|
        ensures SegmentsMatch(glob, segs, Join(parts[..i]), parts[..i]) <==> segs == parts[..i]
      {
        PlainIff(glob, segs, Join(parts[..i]), parts[..i]);
      }
      if segs <= parts {
        assert segs == parts[..|segs|];
      }
    }
  }

  /** A single segment without `**`, with any metacharacters: it is matched against the last component and against the
      whole path; with a slash behind it, it is taken literally for the first component. */
  lemma SingleMatchIff(glob: Glob, p: Pattern, at: seq<string>)
    requires |p.segments| == 1 && '/' !in p.segments[0] && !Contains(p.segments[0], STARS) && Clean(at) && at != []
    ensures !p.dirOnly ==>
              (Matches(glob, p, Join(at)) <==> glob(p.segments[0], at[|at| - 1]) || glob(p.segments[0], Join(at)))
    ensures p.dirOnly ==> (Matches(glob, p, Join(at)) <==> at[0] == p.segments[0])
  {
    BaseOfJoin(at);
    SplitOfJoin(at);
    var seg := p.segments;
    assert seg == [seg[0]] && Join(seg) == seg[0];
    BeginsWithPartsIff(Join(at), seg);
    assert seg <= at <==> at[0] == seg[0];
  }

  /** A literal pattern without `**` matches by the last component if it is a bare name, otherwise the path it spells. */
  lemma PlainMatchIff(glob: Glob, p: Pattern, at: seq<string>)
    requires LiteralGlob(glob) && Literal(p.segments) && p.segments != [] && !p.dirOnly && Clean(at) && at != []
    ensures Matches(glob, p, Join(at)) <==> if |p.segments| == 1 then at[|at| - 1] == p.segments[0] else at == p.segments
  {
    var path := Join(at);
    SplitOfJoin(at);
    if |p.segments| == 1 {
      NoStars(p.segments[0]);
      BaseOfJoin(at);
      if path == p.segments[0] {
        SplitPlain(path);
      }
    } else {
      PlainIff(glob, p.segments, path, at);
    }
  }

  lemma TreeMatchIff(glob: Glob, p: Pattern, path: string)
    requires LiteralGlob(glob) && IsTreePattern(p)
    ensures var l := p.segments[..|p.segments| - 1];
            var dir := Join(l);
            Matches(glob, p, path) <==> l <= Split(path) || dir in Split(path) || Contains(path, "/" + dir + "/")
  {
    var l := p.segments[..|p.segments| - 1];
    assert p.segments == l + [STARS];
    TrailingStarsIff(glob, l, path);
    BeginsWithPartsIff(path, l);
  }

  lemma ContainsInPrefix(s: string, t: string, sub: string)
    requires s <= t && Contains(s, sub)
    ensures Contains(t, sub)
  {
    var i :| 0 <= i <= |s| && OccursAt(s, sub, i);
    assert t[i..i + |sub|] == s[i..i + |sub|];
    assert OccursAt(t, sub, i);
  }

  lemma ContainsBeforeStars(s: string, sub: string)
    requires '*' !in sub && sub != "" && Contains(s + STARS, sub)
    ensures Contains(s, sub)
  {
    var t := s + STARS;
    var i :| 0 <= i <= |t| && OccursAt(t, sub, i);
    assert forall j :: 0 <= j < |sub| ==> t[i + j] == sub[j];
    assert t[i + (|sub| - 1)] == sub[|sub| - 1] != '*';
    assert forall j :: |s| <= j < |t| ==> t[j] == '*';
    assert OccursAt(s, sub, i) by { assert s[i..i + |sub|] == t[i..i + |sub|]; }
  }

  lemma NotInPrefix(segs: seq<string>, at: seq<string>, last: string)
    requires segs <= at + [last]
    ensures segs <= at || last in segs
  {
    if |segs| == |at| + 1 {
      assert segs[|at|] == last;
    } else {
      assert segs == (at + [last])[..|segs|] == at[..|segs|];
    }
  }

  lemma SplitVariants(at: seq<string>)
    requires Clean(at) && at != []
    ensures Split(Join(at)) == at && Split(Join(at) + "/") == at + [""] && Split(Join(at) + "/**") == at + [STARS]
  {
    var d := Join(at);
    SplitOfJoin(at);
    SplitAtSlash(d, "");
    assert d + "/" + "" == d + "/";
    SplitAtSlash(d, STARS);
    SplitPlain(STARS);
    assert d + "/" + STARS == d + "/**";
  }

  /** If one of the walk's three tests of a directory hits a directory pattern, so does every path below it. */
  lemma PatternClosed(glob: Glob, p: Pattern, d: seq<string>, x: seq<string>)
    requires LiteralGlob(glob) && (IsDirPattern(p) || IsTreePattern(p))
    requires Clean(d) && d != [] && Clean(x) && x != []
    requires var s := Join(d); Matches(glob, p, s) || Matches(glob, p, s + "/") || Matches(glob, p, s + "/**")
    ensures Matches(glob, p, Join(d + x))
  {
    var s := Join(d);
    SplitVariants(d);
    JoinAppend(d, x);
    SplitOfJoin(d + x);
    if IsDirPattern(p) {
      DirMatchIff(glob, p, s);
      DirMatchIff(glob, p, s + "/");
      DirMatchIff(glob, p, s + "/**");
      DirMatchIff(glob, p, Join(d + x));
      if p.segments <= d + [""] {
        NotInPrefix(p.segments, d, "");
      } else if p.segments <= d + [STARS] {
        NotInPrefix(p.segments, d, STARS);
      }
    } else {
      TreeClosed(glob, p, d, x);
    }
  }

  /** A tree pattern's mark on a directory: leading components, one component, or inside. */
  predicate Marked(l: seq<string>, d: seq<string>) {
    l <= d || Join(l) in d || Contains(Join(d) + "/", "/" + Join(l) + "/")
  }

  lemma MarkedHere(glob: Glob, p: Pattern, d: seq<string>)
    requires LiteralGlob(glob) && IsTreePattern(p) && Clean(d) && d != [] && Matches(glob, p, Join(d))
    ensures Marked(p.segments[..|p.segments| - 1], d)
  {
    var l := p.segments[..|p.segments| - 1];
    SplitVariants(d);
    TreeMatchIff(glob, p, Join(d));
    if Contains(Join(d), "/" + Join(l) + "/") {
      ContainsInPrefix(Join(d), Join(d) + "/", "/" + Join(l) + "/");
    }
  }

  lemma MarkedAtSlash(glob: Glob, p: Pattern, d: seq<string>)
    requires LiteralGlob(glob) && IsTreePattern(p) && Clean(d) && d != [] && Matches(glob, p, Join(d) + "/")
    ensures Marked(p.segments[..|p.segments| - 1], d)
  {
    var l := p.segments[..|p.segments| - 1];
    PlainNonEmpty(l);
    SplitVariants(d);
    TreeMatchIff(glob, p, Join(d) + "/");
    if l <= d + [""] {
      NotInPrefix(l, d, "");
    }
  }

  lemma HitAtStars(glob: Glob, p: Pattern, d: seq<string>)
    requires LiteralGlob(glob) && IsTreePattern(p) && Clean(d) && d != [] && Matches(glob, p, Join(d) + "/**")
    ensures var l := p.segments[..|p.segments| - 1];
            l <= d + [STARS] || Join(l) in d + [STARS] || Contains(Join(d) + "/**", "/" + Join(l) + "/")
  {
    SplitVariants(d);
    TreeMatchIff(glob, p, Join(d) + "/**");
  }

  lemma MarkedAtStars(glob: Glob, p: Pattern, d: seq<string>)
    requires LiteralGlob(glob) && IsTreePattern(p) && Clean(d) && d != [] && Matches(glob, p, Join(d) + "/**")
    ensures Marked(p.segments[..|p.segments| - 1], d)
  {
    HitAtStars(glob, p, d);
    UnderStars(p.segments[..|p.segments| - 1], d);
  }

  lemma UnderStars(l: seq<string>, d: seq<string>)
    requires PlainDir(l)
    requires l <= d + [STARS] || Join(l) in d + [STARS] || Contains(Join(d) + "/**", "/" + Join(l) + "/")
    ensures Marked(l, d)
  {
    PlainNonEmpty(l);
    if l <= d + [STARS] {
      NotInPrefix(l, d, STARS);
    } else if Contains(Join(d) + "/**", "/" + Join(l) + "/") {
      JoinNoMeta(l);
      assert Join(d) + "/" + STARS == Join(d) + "/**";
      ContainsBeforeStars(Join(d) + "/", "/" + Join(l) + "/");
    }
  }

  lemma MarkedMatches(glob: Glob, p: Pattern, d: seq<string>, x: seq<string>)
    requires LiteralGlob(glob) && IsTreePattern(p) && Clean(d) && d != [] && Clean(x) && x != []
    requires Marked(p.segments[..|p.segments| - 1], d)
    ensures Matches(glob, p, Join(d + x))
  {
    var l := p.segments[..|p.segments| - 1];
    JoinAppend(d, x);
    SplitOfJoin(d + x);
    TreeMatchIff(glob, p, Join(d + x));
    if Join(l) in d {
      assert Join(l) in d + x;
    } else if Contains(Join(d) + "/", "/" + Join(l) + "/") {
      ContainsInPrefix(Join(d) + "/", Join(d + x), "/" + Join(l) + "/");
    }
  }

  lemma TreeClosed(glob: Glob, p: Pattern, d: seq<string>, x: seq<string>)
    requires LiteralGlob(glob) && IsTreePattern(p)
    requires Clean(d) && d != [] && Clean(x) && x != []
    requires var s := Join(d); Matches(glob, p, s) || Matches(glob, p, s + "/") || Matches(glob, p, s + "/**")
    ensures Matches(glob, p, Join(d + x))
  {
    var s := Join(d);
    if Matches(glob, p, s) {
      MarkedHere(glob, p, d);
    } else if Matches(glob, p, s + "/") {
      MarkedAtSlash(glob, p, d);
    } else {
      MarkedAtStars(glob, p, d);
    }
    MarkedMatches(glob, p, d, x);
  }

  lemma PlainNonEmpty(l: seq<string>)
    requires PlainDir(l)
    ensures Join(l) != "" && Join(l) != STARS && STARS !in l && "" !in l
  {
    JoinNoMeta(l);
    assert l[0] != "";
    assert STARS[0] == '*';
  }

  lemma RootStays(glob: Glob, p: Pattern)
    requires LiteralGlob(glob) && (IsDirPattern(p) || IsTreePattern(p))
    ensures !Matches(glob, p, "/**")
  {
    SplitAtSlash("", STARS);
    SplitPlain(STARS);
    assert "" + "/" + STARS == "/**";
    assert Split("/**") == ["", STARS];
    if IsDirPattern(p) {
      DirMatchIff(glob, p, "/**");
      PlainNonEmpty(p.segments);
      assert p.segments[0] != "";
    } else {
      var l := p.segments[..|p.segments| - 1];
      TreeMatchIff(glob, p, "/**");
      PlainNonEmpty(l);
      JoinNoMeta(l);
      assert l[0] != "";
      MarkNotInRoot(Join(l));
    }
  }

  lemma MarkNotInRoot(dir: string)
    requires dir != ""
    ensures !Contains("/**", "/" + dir + "/")
  {
    var mark := "/" + dir + "/";
    forall i | 0 <= i <= 3
      ensures !OccursAt("/**", mark, i)
    {
      if i == 0 && |mark| == 3 {
        assert "/**"[0..3][2] != mark[2];
      }
    }
  }

  ghost function SkipsOf(glob: Glob, ps: seq<Pattern>, temp: string -> bool): Skips {
    Skips(path => Ignored(glob, ps, path), temp)
  }

  lemma DirPatternsClosed(glob: Glob, ps: seq<Pattern>, temp: string -> bool)
    requires LiteralGlob(glob) && forall i :: 0 <= i < |ps| ==> IsDirPattern(ps[i]) || IsTreePattern(ps[i])
    ensures Closed(SkipsOf(glob, ps, temp))
  {
    var k := SkipsOf(glob, ps, temp);
    forall d: seq<string>, x: seq<string> | Clean(d) && Clean(x) && x != [] && Pruned(k, Join(d))
      ensures !Kept(k, Join(d + x))
    {
      if d == [] {
        assert Join(d) + "/**" == "/**";
        IgnoredIffSome(glob, ps, "/**");
        forall i | 0 <= i < |ps|
          ensures !Matches(glob, ps[i], "/**")
        {
          RootStays(glob, ps[i]);
        }
      } else {
        var s := Join(d);
        assert s != "" by { assert d[0] != ""; }
        IgnoredIffSome(glob, ps, s);
        IgnoredIffSome(glob, ps, s + "/");
        IgnoredIffSome(glob, ps, s + "/**");
        var i :| 0 <= i < |ps| && (Matches(glob, ps[i], s) || Matches(glob, ps[i], s + "/") || Matches(glob, ps[i], s + "/**"));
        PatternClosed(glob, ps[i], d, x);
        JoinAppend(d, x);
        IgnoredIffSome(glob, ps, Join(d + x));
      }
    }
  }

  /** The way to a regular file that neither test holds of. */
  ghost predicate Regular(glob: Glob, ps: seq<Pattern>, temp: string -> bool, tree: Node, at: seq<string>, f: Found) {
    f.path == Join(at) && LeadsTo(tree, at, f.meta) && !temp(f.path) && !Ignored(glob, ps, f.path)
  }

  lemma RegularIff(glob: Glob, ps: seq<Pattern>, temp: string -> bool, tree: Node, f: Found)
    ensures f in Flat(SkipsOf(glob, ps, temp), [], tree) <==> exists at :: Regular(glob, ps, temp, tree, at, f)
  {
    var k := SkipsOf(glob, ps, temp);
    FlatIff(k, tree, f);
    assert forall at :: FilteredBy(k, tree, at, f) <==> Regular(glob, ps, temp, tree, at, f);
  }

  // For lists made of `dir/` and `dir/**` entries the manifest walk lists exactly the regular files that are
  // neither temporary nor ignored by their own path, in every tree, each once.
  lemma DirPatternsPruneFaithfully(glob: Glob, ps: seq<Pattern>, temp: string -> bool, tree: Node)
    requires LiteralGlob(glob) && forall i :: 0 <= i < |ps| ==> IsDirPattern(ps[i]) || IsTreePattern(ps[i])
    requires tree.Dir? && CleanTree(tree)
    ensures var k := SkipsOf(glob, ps, temp);
            && Walk.Walk(k, [], tree) == Flat(k, [], tree) && NoRepeats(Walk.Walk(k, [], tree))
            && forall f :: f in Walk.Walk(k, [], tree) <==> exists at :: Regular(glob, ps, temp, tree, at, f)
  {
    var k := SkipsOf(glob, ps, temp);
    DirPatternsClosed(glob, ps, temp);
    WalkIsFlat(k, [], tree);
    WalkListsOnce(k, [], tree);
    forall f
      ensures f in Flat(k, [], tree) <==> exists at :: Regular(glob, ps, temp, tree, at, f)
    {
      RegularIff(glob, ps, temp, tree, f);
    }
  }

  lemma LastCharOfJoin(at: seq<string>)
    requires Clean(at) && at != []
    ensures Join(at) != "" && Join(at)[|Join(at)| - 1] != '/'
  {
    var n := |at| - 1;
    var last := at[n];
    assert CleanName(last) && last[|last| - 1] in last;
    if n > 0 {
      JoinAppend(at[..n], [last]);
      assert at == at[..n] + [last];
      assert Join(at) == Join(at[..n]) + "/" + last;
    }
  }

  lemma BaseOfJoin(at: seq<string>)
    requires Clean(at) && at != []
    ensures Base(Join(at)) == at[|at| - 1]
  {
    LastCharOfJoin(at);
    SplitOfJoin(at);
  }

  /** A bare name is different: the directory is skipped, though a file in it is not ignored by its own path. */
  lemma BareNameOverPrunes(glob: Glob, dir: string, file: string)
    requires LiteralGlob(glob) && NoMeta(dir) && CleanName(dir) && CleanName(file) && dir != file
    ensures var ps := [Pattern(false, [dir], false)];
            Ignored(glob, ps, dir) && !Ignored(glob, ps, Join([dir, file]))
  {
    var p := Pattern(false, [dir], false);
    NoStars(dir);
    BaseOfJoin([dir]);
    BaseOfJoin([dir, file]);
    assert Join([dir, file]) == dir + "/" + Join([dir, file][1..]);
    assert '/' in Join([dir, file]);
    IgnoredIffSome(glob, [p], dir);
    IgnoredIffSome(glob, [p], Join([dir, file]));
    assert Matches(glob, [p][0], dir);
  }

  // ---------------------------------------------------------------- temporary names

  /** Lower case as far as the suffixes below can tell: the letters that `strings.ToLower` maps to ASCII. */
  function Lower(s: string): (l: string)
    ensures |l| == |s|
  {
    seq(|s|, i requires 0 <= i < |s| => LowerChar(s[i]))
  }

  function LowerChar(c: char): char {
    if 'A' <= c <= 'Z' then (c as int + 32) as char
    else if c as int == 0x130 then 'i'
    else if c as int == 0x212A then 'k'
    else c
  }

  predicate IsTempRel(rel: string) {
    var base := Lower(Base(rel));
    || HasPrefix(base, ".~") || HasPrefix(base, "~$")
    || HasSuffix(base, ".tmp") || HasSuffix(base, ".sps.tmp") || HasSuffix(base, ".swp") || HasSuffix(base, ".swo")
    || HasSuffix(base, ".partial")
  }

  /** The last part made longer. */
  function Grown(parts: seq<string>, t: string): seq<string>
    requires parts != []
  {
    parts[..|parts| - 1] + [parts[|parts| - 1] + t]
  }

  lemma GrownCons(h: string, rest: seq<string>, t: string)
    requires rest != []
    ensures Grown([h] + rest, t) == [h] + Grown(rest, t)
  {
  }

  lemma GrownHead(c: char, rest: seq<string>, t: string)
    requires rest != []
    ensures [[c] + Grown(rest, t)[0]] + Grown(rest, t)[1..] == Grown([[c] + rest[0]] + rest[1..], t)
  {
    if |rest| == 1 {
      assert [c] + (rest[0] + t) == ([c] + rest[0]) + t;
    }
  }

  lemma {:induction false} SplitGrows(s: string, t: string)
    requires '/' !in t
    ensures Split(s + t) == Grown(Split(s), t)
  {
    if s == "" {
      SplitPlain(t);
      assert s + t == t;
    } else {
      assert (s + t)[1..] == s[1..] + t && (s + t)[0] == s[0];
      SplitGrows(s[1..], t);
      GrownCons("", Split(s[1..]), t);
      GrownHead(s[0], Split(s[1..]), t);
    }
  }

  /** The beginnings and, in any case of letters, the endings of temporary names. */
  ghost predicate LooksTemporary(name: string) {
    || HasPrefix(name, ".~") || HasPrefix(name, "~$")
    || exists stem, ending :: name == stem + ending && IsTempEnding(Lower(ending))
  }

  predicate IsTempEnding(s: string) {
    s == ".tmp" || s == ".sps.tmp" || s == ".swp" || s == ".swo" || s == ".partial"
  }

  lemma LowerSuffix(name: string, s: string)
    ensures HasSuffix(Lower(name), s) <==> exists stem, ending :: name == stem + ending && Lower(ending) == s
  {
    if HasSuffix(Lower(name), s) {
      var k := |name| - |s|;
      assert name == name[..k] + name[k..] && Lower(name[k..]) == Lower(name)[k..];
    }
    if stem, ending :| name == stem + ending && Lower(ending) == s {
      assert Lower(name)[|stem|..] == Lower(ending);
    }
  }

  lemma LowerPrefix(name: string)
    ensures HasPrefix(Lower(name), ".~") <==> HasPrefix(name, ".~")
    ensures HasPrefix(Lower(name), "~$") <==> HasPrefix(name, "~$")
  {
    assert |name| >= 2 ==> Lower(name)[0] == LowerChar(name[0]) && Lower(name)[1] == LowerChar(name[1]);
  }

  /** A path is temporary exactly when its last component looks so. */
  lemma TempIff(at: seq<string>)
    requires Clean(at) && at != []
    ensures IsTempRel(Join(at)) <==> LooksTemporary(at[|at| - 1])
  {
    BaseOfJoin(at);
    var name := at[|at| - 1];
    LowerPrefix(name);
    LowerSuffix(name, ".tmp");
    LowerSuffix(name, ".sps.tmp");
    LowerSuffix(name, ".swp");
    LowerSuffix(name, ".swo");
    LowerSuffix(name, ".partial");
  }

  /** The name a file is received under is temporary whatever the file, so it never enters a manifest. */
  lemma ReceivedNamesAreTemp(path: string)
    ensures IsTempRel(path + ".sps.tmp")
  {
    var suffix := ".sps.tmp";
    var rel := path + suffix;
    SplitGrows(path, suffix);
    assert rel[|rel| - 1] == 'p';
    var p := Split(path);
    var base := Base(rel);
    assert base == p[|p| - 1] + suffix;
    var low := Lower(base);
    assert low[|low| - |suffix|..] == suffix;
  }

  /** No file that is still being received is in a manifest. */
  lemma ReceivedNamesNeverListed(glob: Glob, ps: seq<Pattern>, root: Node, f: Found, path: string)
    requires f in Walk.Walk(SkipsOf(glob, ps, rel => IsTempRel(rel)), [], root)
    ensures f.path != path + ".sps.tmp"
  {
    ListedIff(SkipsOf(glob, ps, rel => IsTempRel(rel)), root, f);
    ReceivedNamesAreTemp(path);
  }
}
