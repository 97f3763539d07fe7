/** Two bidirectional replicas with a shared ignore list and no edits in between: which sequences of
    exchanges make them equal, and to what. */
module Convergence {
  import opened Reconcile

  /** One exchange: the direction, and what the receiver's clock says during it. */
  datatype Round = Round(toB: bool, stamp: string, now: string -> int)

  datatype Pair = Pair(a: Replica, b: Replica)

  function Step(r: Rules, s: Pair, x: Round): Pair {
    if x.toB then s.(b := Merged(r, Bidirectional, s.a, s.b, x.stamp, x.now))
    else s.(a := Merged(r, Bidirectional, s.b, s.a, x.stamp, x.now))
  }

  function Play(r: Rules, s: Pair, rounds: seq<Round>): Pair
    decreases |rounds|
  {
    if rounds == [] then s else Play(r, Step(r, s, rounds[0]), rounds[1..])
  }

  predicate Has(rounds: seq<Round>, toB: bool) {
    exists i :: 0 <= i < |rounds| && rounds[i].toB == toB
  }

  /** Identical contents on every visible path. */
  ghost predicate Converged(r: Rules, s: Pair) {
    forall p :: !r.hidden(p) ==> (p in s.a <==> p in s.b) && (p in s.a ==> s.a[p].content == s.b[p].content)
  }

  lemma HasTail(rounds: seq<Round>, toB: bool)
    requires rounds != []
    ensures Has(rounds, toB) <==> rounds[0].toB == toB || Has(rounds[1..], toB)
  {
    if Has(rounds, toB) && rounds[0].toB != toB {
      var i :| 0 <= i < |rounds| && rounds[i].toB == toB;
      assert rounds[1..][i - 1].toB == toB;
    }
    if Has(rounds[1..], toB) {
      var i :| 0 <= i < |rounds| - 1 && rounds[1..][i].toB == toB;
      assert rounds[i + 1].toB == toB;
    }
  }

  // ---------------------------------------------------------------- the two sides are interchangeable

  function Swap(s: Pair): Pair {
    Pair(s.b, s.a)
  }

  function Flip(rounds: seq<Round>): (f: seq<Round>)
    ensures |f| == |rounds|
    ensures forall i :: 0 <= i < |f| ==> f[i] == rounds[i].(toB := !rounds[i].toB)
  {
    if rounds == [] then [] else [rounds[0].(toB := !rounds[0].toB)] + Flip(rounds[1..])
  }

  lemma {:induction false} PlaySwapped(r: Rules, s: Pair, rounds: seq<Round>)
    ensures Play(r, Swap(s), Flip(rounds)) == Swap(Play(r, s, rounds))
    decreases |rounds|
  {
    if rounds != [] {
      assert Flip(rounds)[1..] == Flip(rounds[1..]);
      PlaySwapped(r, Step(r, s, rounds[0]), rounds[1..]);
    }
  }

  lemma HasFlipped(rounds: seq<Round>, toB: bool)
    ensures Has(Flip(rounds), toB) <==> Has(rounds, !toB)
  {
    if i :| 0 <= i < |rounds| && rounds[i].toB == !toB {
      assert Flip(rounds)[i].toB == toB;
    }
  }

  // ---------------------------------------------------------------- after the first exchange

  /** Where both sides have a path, they agree or `b` is strictly newer; so there is nothing to clash over. */
  ghost predicate Ahead(r: Rules, s: Pair) {
    forall p :: Visible(r, s.a, p) && p in s.b ==> s.a[p].content == s.b[p].content || s.a[p].mtime < s.b[p].mtime
  }

  /** `b` has all that `a` shows. */
  ghost predicate Covers(r: Rules, s: Pair) {
    forall p :: Visible(r, s.a, p) ==> p in s.b
  }

  /** `a` has all that `b` shows, with the same contents. */
  ghost predicate Agrees(r: Rules, s: Pair) {
    forall p :: Visible(r, s.b, p) ==> p in s.a && s.a[p].content == s.b[p].content
  }

  lemma FirstExchange(r: Rules, s: Pair, x: Round)
    requires x.toB && FreshStamp(s.a, s.b, x.stamp)
    ensures Ahead(r, Step(r, s, x))
  {
    var t := Step(r, s, x);
    forall p | Visible(r, t.a, p) && p in t.b
      ensures t.a[p].content == t.b[p].content || t.a[p].mtime < t.b[p].mtime
    {
      MergedAt(r, Bidirectional, s.a, s.b, x.stamp, x.now, p);
      NotMoved(r, Bidirectional, s.a, s.b, x.stamp, p);
    }
  }

  /** With nothing to clash over an exchange only copies. */
  lemma CalmAt(r: Rules, a: Replica, b: Replica, stamp: string, now: string -> int, q: string)
    requires forall p :: !Clashes(r, Bidirectional, a, b, p)
    ensures var m := Merged(r, Bidirectional, a, b, stamp, now);
            && (q in m <==> q in b || Wants(r, Bidirectional, a, b, q))
            && (q in m ==> m[q] == if Wants(r, Bidirectional, a, b, q) then File(a[q].content, now(q)) else b[q])
  {
    MergedAt(r, Bidirectional, a, b, stamp, now, q);
  }

  lemma AheadStep(r: Rules, s: Pair, x: Round)
    requires Ahead(r, s)
    ensures var t := Step(r, s, x);
            && Ahead(r, t)
            && (x.toB || Covers(r, s) ==> Covers(r, t))
            && (!x.toB || Agrees(r, s) ==> Agrees(r, t))
  {
    var t := Step(r, s, x);
    forall p
      ensures Visible(r, t.a, p) && p in t.b ==> t.a[p].content == t.b[p].content || t.a[p].mtime < t.b[p].mtime
      ensures (x.toB || Covers(r, s)) && Visible(r, t.a, p) ==> p in t.b
      ensures (!x.toB || Agrees(r, s)) && Visible(r, t.b, p) ==> p in t.a && t.a[p].content == t.b[p].content
    {
      if x.toB {
        CalmAt(r, s.a, s.b, x.stamp, x.now, p);
      } else {
        CalmAt(r, s.b, s.a, x.stamp, x.now, p);
      }
    }
  }

  lemma {:induction false} AheadPlay(r: Rules, s: Pair, rounds: seq<Round>)
    requires Ahead(r, s)
    ensures var t := Play(r, s, rounds);
            && Ahead(r, t)
            && (Has(rounds, true) || Covers(r, s) ==> Covers(r, t))
            && (Has(rounds, false) || Agrees(r, s) ==> Agrees(r, t))
    decreases |rounds|
  {
    if rounds != [] {
      HasTail(rounds, true);
      HasTail(rounds, false);
      AheadStep(r, s, rounds[0]);
      AheadPlay(r, Step(r, s, rounds[0]), rounds[1..]);
    }
  }

  lemma ConvergesFromA(r: Rules, s: Pair, rounds: seq<Round>)
    requires rounds != [] && rounds[0].toB && FreshStamp(s.a, s.b, rounds[0].stamp)
    requires Has(rounds[1..], true) && Has(rounds[1..], false)
    ensures Converged(r, Play(r, s, rounds))
  {
    FirstExchange(r, s, rounds[0]);
    AheadPlay(r, Step(r, s, rounds[0]), rounds[1..]);
  }

  /** Even with conflicts, a first exchange in either direction followed by at least one in each direction makes
      the replicas equal. A then B then A is the shortest such sequence, and so is A, A, B. */
  lemma Converges(r: Rules, s: Pair, rounds: seq<Round>)
    requires rounds != [] && FreshStamp(s.a, s.b, rounds[0].stamp)
    requires Has(rounds[1..], true) && Has(rounds[1..], false)
    ensures Converged(r, Play(r, s, rounds))
  {
    if rounds[0].toB {
      ConvergesFromA(r, s, rounds);
    } else {
      assert Flip(rounds)[1..] == Flip(rounds[1..]);
      HasFlipped(rounds[1..], true);
      HasFlipped(rounds[1..], false);
      ConvergesFromA(r, Swap(s), Flip(rounds));
      PlaySwapped(r, s, rounds);
    }
  }

  // ---------------------------------------------------------------- fewer exchanges are not enough

  /** Rounds that never go towards a side leave that side as it is, and take nothing from the other. */
  lemma {:induction false} OneSided(r: Rules, s: Pair, rounds: seq<Round>, p: string)
    requires !Has(rounds, true) && p in s.a && p !in s.b
    ensures var t := Play(r, s, rounds); t.b == s.b && p in t.a
    decreases |rounds|
  {
    if rounds != [] {
      HasTail(rounds, true);
      var x := rounds[0];
      MergedAt(r, Bidirectional, s.b, s.a, x.stamp, x.now, p);
      OneSided(r, Step(r, s, x), rounds[1..], p);
    }
  }

  lemma OneSidedSwapped(r: Rules, s: Pair, rounds: seq<Round>, p: string)
    requires !Has(rounds, false) && p in s.b && p !in s.a
    ensures var t := Play(r, s, rounds); t.a == s.a && p in t.b
  {
    HasFlipped(rounds, true);
    OneSided(r, Swap(s), Flip(rounds), p);
    PlaySwapped(r, s, rounds);
  }

  /** Two different files of the same age at `p`. */
  function Clash(p: string): Pair {
    Pair(map[p := File([0], 0)], map[p := File([1], 0)])
  }

  lemma ClashMovesAway(r: Rules, x: Round, p: string)
    requires x.toB && !r.hidden(p)
    ensures FreshStamp(Clash(p).a, Clash(p).b, x.stamp)
    ensures var t := Step(r, Clash(p), x); p in t.a && p !in t.b
  {
    var s := Clash(p);
    NamesDiffer(x.stamp);
    MergedAt(r, Bidirectional, s.a, s.b, x.stamp, x.now, p);
    NotMoved(r, Bidirectional, s.a, s.b, x.stamp, p);
  }

  lemma NotEnoughFromA(r: Rules, rounds: seq<Round>, p: string) returns (s: Pair)
    requires rounds != [] && rounds[0].toB && !r.hidden(p)
    requires !Has(rounds[1..], true) || !Has(rounds[1..], false)
    ensures FreshStamp(s.a, s.b, rounds[0].stamp) && !Converged(r, Play(r, s, rounds))
  {
    if !Has(rounds[1..], true) {
      s := Clash(p);
      ClashMovesAway(r, rounds[0], p);
      OneSided(r, Step(r, s, rounds[0]), rounds[1..], p);
    } else {
      s := Pair(map[], map[p := File([0], 0)]);
      HasTail(rounds, false);
      NamesDiffer(rounds[0].stamp);
      OneSidedSwapped(r, s, rounds, p);
    }
  }

  lemma NotEnough(r: Rules, rounds: seq<Round>, p: string) returns (s: Pair)
    requires rounds != [] && !r.hidden(p)
    requires !Has(rounds[1..], true) || !Has(rounds[1..], false)
    ensures FreshStamp(s.a, s.b, rounds[0].stamp) && !Converged(r, Play(r, s, rounds))
  {
    if rounds[0].toB {
      s := NotEnoughFromA(r, rounds, p);
    } else {
      assert Flip(rounds)[1..] == Flip(rounds[1..]);
      HasFlipped(rounds[1..], true);
      HasFlipped(rounds[1..], false);
      var t := NotEnoughFromA(r, Flip(rounds), p);
      s := Swap(t);
      assert t == Swap(s);
      PlaySwapped(r, s, rounds);
    }
  }

  /** Exactly which sequences of exchanges make every two replicas equal: those that, after the first exchange,
      still have one in each direction. */
  lemma ConvergesIff(r: Rules, rounds: seq<Round>, p: string)
    requires rounds != [] && !r.hidden(p)
    ensures (forall s: Pair :: FreshStamp(s.a, s.b, rounds[0].stamp) ==> Converged(r, Play(r, s, rounds)))
            <==> Has(rounds[1..], true) && Has(rounds[1..], false)
  {
    if Has(rounds[1..], true) && Has(rounds[1..], false) {
      forall s: Pair | FreshStamp(s.a, s.b, rounds[0].stamp)
        ensures Converged(r, Play(r, s, rounds))
      {
        Converges(r, s, rounds);
      }
    } else {
      var s := NotEnough(r, rounds, p);
    }
  }

  // ---------------------------------------------------------------- conflict copies

  /** What `b` held at a conflicted path outlives the whole sequence under its conflict name. */
  lemma ConflictCopySurvives(r: Rules, s: Pair, rounds: seq<Round>, p: string)
    requires rounds != [] && rounds[0].toB && FreshStamp(s.a, s.b, rounds[0].stamp)
    requires Clashes(r, Bidirectional, s.a, s.b, p)
    ensures var name := p + ".conflict." + rounds[0].stamp;
            var t := Play(r, s, rounds);
            name in t.b && t.b[name].content == s.b[p].content
  {
    var x := rounds[0];
    var name := ConflictName(p, x.stamp);
    NewName(r, Bidirectional, s.a, s.b, x.stamp, p);
    MergedAt(r, Bidirectional, s.a, s.b, x.stamp, x.now, name);
    FirstExchange(r, s, x);
    CopyStays(r, Step(r, s, x), rounds[1..], name, s.b[p].content);
  }

  lemma {:induction false} CopyStays(r: Rules, s: Pair, rounds: seq<Round>, name: string, c: Content)
    requires Ahead(r, s) && name in s.b && s.b[name].content == c
    requires Visible(r, s.a, name) ==> s.a[name].content == c
    ensures var t := Play(r, s, rounds); name in t.b && t.b[name].content == c
    decreases |rounds|
  {
    if rounds != [] {
      var x := rounds[0];
      AheadStep(r, s, x);
      if x.toB {
        CalmAt(r, s.a, s.b, x.stamp, x.now, name);
      } else {
        CalmAt(r, s.b, s.a, x.stamp, x.now, name);
      }
      CopyStays(r, Step(r, s, x), rounds[1..], name, c);
    }
  }

  // ---------------------------------------------------------------- newest wins

  /** The replicas have nothing to clash over. */
  ghost predicate Calm(r: Rules, s: Pair) {
    forall p :: !Clashes(r, Bidirectional, s.a, s.b, p)
  }

  /** The only holder's content, or the newer one's; where the times are equal so are the contents. */
  function Winner(s: Pair, p: string): Content
    requires p in s.a || p in s.b
  {
    if p !in s.b || (p in s.a && s.a[p].mtime >= s.b[p].mtime) then s.a[p].content else s.b[p].content
  }

  predicate Settled(s0: Pair, s: Pair, p: string)
    requires p in s0.a || p in s0.b
  {
    p in s.a && p in s.b && s.a[p].content == s.b[p].content == Winner(s0, p)
  }

  predicate Untouched(s0: Pair, s: Pair, p: string) {
    && (p in s.a <==> p in s0.a) && (p in s.a ==> s.a[p] == s0.a[p])
    && (p in s.b <==> p in s0.b) && (p in s.b ==> s.b[p] == s0.b[p])
  }

  /** Every visible path is as it was at the start or has its winner on both sides. */
  ghost predicate Progressing(r: Rules, s0: Pair, s: Pair) {
    forall p :: !r.hidden(p) ==> Untouched(s0, s, p) || ((p in s0.a || p in s0.b) && Settled(s0, s, p))
  }

  /** `a`, or `b`, has nothing left to give. */
  ghost predicate Given(r: Rules, s0: Pair, s: Pair, fromA: bool) {
    forall p :: !r.hidden(p) && (if fromA then p in s0.a else p in s0.b) ==>
      Settled(s0, s, p) || (if fromA then p in s0.b && Winner(s0, p) == s0.b[p].content else p in s0.a && Winner(s0, p) == s0.a[p].content)
  }

  lemma ProgressStep(r: Rules, s0: Pair, s: Pair, x: Round)
    requires Calm(r, s0) && Progressing(r, s0, s)
    ensures var t := Step(r, s, x);
            && Progressing(r, s0, t)
            && (x.toB || Given(r, s0, s, true) ==> Given(r, s0, t, true))
            && (!x.toB || Given(r, s0, s, false) ==> Given(r, s0, t, false))
  {
    StaysCalm(r, s0, s);
    var t := Step(r, s, x);
    forall p | !r.hidden(p)
      ensures Untouched(s0, t, p) || ((p in s0.a || p in s0.b) && Settled(s0, t, p))
      ensures (p in s0.a || p in s0.b) && Settled(s0, s, p) ==> Settled(s0, t, p)
      ensures x.toB && p in s0.a ==> Settled(s0, t, p) || (p in s0.b && Winner(s0, p) == s0.b[p].content)
      ensures !x.toB && p in s0.b ==> Settled(s0, t, p) || (p in s0.a && Winner(s0, p) == s0.a[p].content)
    {
      assert !Clashes(r, Bidirectional, s0.a, s0.b, p);
      if x.toB {
        CalmAt(r, s.a, s.b, x.stamp, x.now, p);
      } else {
        CalmAt(r, s.b, s.a, x.stamp, x.now, p);
      }
    }
  }

  lemma StaysCalm(r: Rules, s0: Pair, s: Pair)
    requires Calm(r, s0) && Progressing(r, s0, s)
    ensures Calm(r, s) && Calm(r, Swap(s))
  {
    forall p
      ensures !Clashes(r, Bidirectional, s.a, s.b, p) && !Clashes(r, Bidirectional, s.b, s.a, p)
    {
      assert !Clashes(r, Bidirectional, s0.a, s0.b, p);
    }
  }

  lemma {:induction false} ProgressPlay(r: Rules, s0: Pair, s: Pair, rounds: seq<Round>)
    requires Calm(r, s0) && Progressing(r, s0, s)
    ensures var t := Play(r, s, rounds);
            && Progressing(r, s0, t)
            && (Has(rounds, true) || Given(r, s0, s, true) ==> Given(r, s0, t, true))
            && (Has(rounds, false) || Given(r, s0, s, false) ==> Given(r, s0, t, false))
    decreases |rounds|
  {
    if rounds != [] {
      HasTail(rounds, true);
      HasTail(rounds, false);
      ProgressStep(r, s0, s, rounds[0]);
      ProgressPlay(r, s0, Step(r, s, rounds[0]), rounds[1..]);
    }
  }

  /** The outcome newest-wins promises. */
  ghost predicate NewestWon(r: Rules, s0: Pair, s: Pair) {
    && Converged(r, s)
    && forall p :: !r.hidden(p) && (p in s0.a || p in s0.b) ==> p in s.a && s.a[p].content == Winner(s0, p)
  }

  lemma NewestWins(r: Rules, s: Pair, rounds: seq<Round>)
    requires Calm(r, s) && Has(rounds, true) && Has(rounds, false)
    ensures NewestWon(r, s, Play(r, s, rounds))
  {
    ProgressPlay(r, s, s, rounds);
    var t := Play(r, s, rounds);
    forall p | !r.hidden(p)
      ensures (p in t.a <==> p in t.b) && (p in t.a ==> t.a[p].content == t.b[p].content)
      ensures p in s.a || p in s.b ==> p in t.a && t.a[p].content == Winner(s, p)
    {
      assert Untouched(s, t, p) || ((p in s.a || p in s.b) && Settled(s, t, p));
    }
  }

  lemma NotEnoughForNewest(r: Rules, rounds: seq<Round>, p: string) returns (s: Pair)
    requires !r.hidden(p) && (!Has(rounds, true) || !Has(rounds, false))
    ensures Calm(r, s) && !Converged(r, Play(r, s, rounds))
  {
    var one: Replica := map[p := File([0], 0)];
    if !Has(rounds, true) {
      s := Pair(one, map[]);
      OneSided(r, s, rounds, p);
    } else {
      s := Pair(map[], one);
      OneSidedSwapped(r, s, rounds, p);
    }
  }

  /** Without equal-time conflicts, exactly the sequences with an exchange in each direction give every visible
      path the newer side's content on both sides, although received files carry the receiver's clock. */
  lemma NewestWinsIff(r: Rules, rounds: seq<Round>, p: string)
    requires !r.hidden(p)
    ensures (forall s: Pair :: Calm(r, s) ==> NewestWon(r, s, Play(r, s, rounds)))
            <==> Has(rounds, true) && Has(rounds, false)
  {
    if Has(rounds, true) && Has(rounds, false) {
      forall s: Pair | Calm(r, s)
        ensures NewestWon(r, s, Play(r, s, rounds))
      {
        NewestWins(r, s, rounds);
      }
    } else {
      var s := NotEnoughForNewest(r, rounds, p);
    }
  }

  // ---------------------------------------------------------------- rest

  /** Two replicas are equal on all visible paths exactly when neither asks the other for anything and nothing
      clashes; so the loops fall silent after convergence and not before. */
  lemma SilentIff(r: Rules, s: Pair)
    ensures Converged(r, s) <==>
            forall p :: !Wants(r, Bidirectional, s.a, s.b, p) && !Wants(r, Bidirectional, s.b, s.a, p)
                        && !Clashes(r, Bidirectional, s.a, s.b, p)
  {
    if !Converged(r, s) {
      var p :| !r.hidden(p) && !((p in s.a <==> p in s.b) && (p in s.a ==> s.a[p].content == s.b[p].content));
      assert Wants(r, Bidirectional, s.a, s.b, p) || Wants(r, Bidirectional, s.b, s.a, p) || Clashes(r, Bidirectional, s.a, s.b, p);
    }
  }

  lemma FirstIsIn(s: seq<string>)
    ensures s != [] ==> s[0] in s
  {
  }

  /** After convergence a manifest in either direction leads to no request and changes no file. */
  lemma NothingRequested(r: Rules, s: Pair, entries: seq<Entry>, stamp: string)
    requires CollisionFree(r) && Converged(r, s) && IsManifest(r, s.a, entries) && FreshStamp(s.a, s.b, stamp)
    ensures Decide(r, Bidirectional, s.b, entries, stamp) == Plan(s.b, [])
  {
    SilentIff(r, s);
    DecideSoFar(r, Bidirectional, s.a, s.b, entries, stamp);
    var plan := Decide(r, Bidirectional, s.b, entries, stamp);
    FirstIsIn(plan.needed);
    assert plan.files == s.b;
  }
}
