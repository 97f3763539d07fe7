/** What the receiver of a manifest does to its own files, and what a completed exchange leaves it with. */
module Reconcile {
  import opened Order

  type Content = seq<int>

  datatype File = File(content: Content, mtime: int)

  /** The files under a sync root, by relative path. */
  type Replica = map<string, File>

  datatype Entry = Entry(path: string, hash: string, mtime: int)

  datatype Direction = Bidirectional | Push | Pull

  /** `hash` is the content digest; `hidden` holds of ignored and temporary paths, the same on both sides. */
  datatype Rules = Rules(hash: Content -> string, hidden: string -> bool)

  ghost predicate CollisionFree(r: Rules) {
    forall x, y :: r.hash(x) == r.hash(y) ==> x == y
  }

  // ---------------------------------------------------------------- one entry

  datatype Verdict = Keep | Fetch | Conflict

  predicate ShouldSkip(r: Rules, dir: Direction, files: Replica, e: Entry) {
    && e.path in files
    && dir.Bidirectional?
    && r.hash(files[e.path].content) == e.hash && files[e.path].mtime >= e.mtime
  }

  /** The branches of `applyManifest` for one entry. */
  function Judge(r: Rules, dir: Direction, files: Replica, e: Entry): Verdict {
    if r.hidden(e.path) then Keep
    else if ShouldSkip(r, dir, files, e) then Keep
    else if e.path !in files then Fetch
    else if r.hash(files[e.path].content) == e.hash then Keep
    else if dir.Bidirectional? && files[e.path].mtime > e.mtime then Keep
    else if dir.Bidirectional? && files[e.path].mtime == e.mtime then Conflict
    else Fetch
  }

  /** The early `shouldSkip` test never changes the outcome: an entry is fetched exactly when it is visible and
      missing or different here, and, both ways, newer there. */
  lemma JudgeIff(r: Rules, dir: Direction, files: Replica, e: Entry)
    ensures Judge(r, dir, files, e) == Fetch <==>
              && !r.hidden(e.path)
              && (e.path in files ==>
                    r.hash(files[e.path].content) != e.hash && (dir.Bidirectional? ==> files[e.path].mtime < e.mtime))
    ensures Judge(r, dir, files, e) == Conflict <==>
              && !r.hidden(e.path) && dir.Bidirectional? && e.path in files
              && r.hash(files[e.path].content) != e.hash && files[e.path].mtime == e.mtime
  {
  }

  // ---------------------------------------------------------------- a whole manifest

  function ConflictName(path: string, stamp: string): string {
    path + ".conflict." + stamp
  }

  lemma NamesDiffer(stamp: string)
    ensures forall p, q :: ConflictName(p, stamp) == ConflictName(q, stamp) ==> p == q
    ensures forall p :: ConflictName(p, stamp) != p
  {
    forall p, q | ConflictName(p, stamp) == ConflictName(q, stamp)
      ensures p == q
    {
      var s := ".conflict." + stamp;
      assert ConflictName(p, stamp) == p + s && ConflictName(q, stamp) == q + s;
      assert |p| == |q|;
      assert p == (p + s)[..|p|] == (q + s)[..|q|] == q;
    }
  }

  /** `os.Rename` of a file that exists. */
  function Rename(files: Replica, from: string, to: string): Replica
    requires from in files
  {
    (files - {from})[to := files[from]]
  }

  datatype Plan = Plan(files: Replica, needed: seq<string>)

  /** The loop of `applyManifest` over the manifest, as a fold: conflicts rename files as they are met. */
  function Decide(r: Rules, dir: Direction, files: Replica, entries: seq<Entry>, stamp: string): Plan {
    if entries == [] then Plan(files, [])
    else
      var n := |entries| - 1;
      DecideOne(r, dir, Decide(r, dir, files, entries[..n], stamp), entries[n], stamp)
  }

  function DecideOne(r: Rules, dir: Direction, plan: Plan, e: Entry, stamp: string): Plan {
    match Judge(r, dir, plan.files, e)
    case Keep => plan
    case Fetch => plan.(needed := plan.needed + [e.path])
    case Conflict => plan.(files := Rename(plan.files, e.path, ConflictName(e.path, stamp)))
  }

  /** The sender's tree walk lists every visible file once, in some order. */
  ghost predicate IsManifest(r: Rules, files: Replica, entries: seq<Entry>) {
    && (forall i, j :: 0 <= i < j < |entries| ==> entries[i].path != entries[j].path)
    && (forall e :: e in entries ==>
          && e.path in files && !r.hidden(e.path)
          && e.hash == r.hash(files[e.path].content) && e.mtime == files[e.path].mtime)
    && (forall p :: p in files && !r.hidden(p) ==> exists e :: e in entries && e.path == p)
  }

  /** Conflict names are new to both sides. */
  predicate FreshStamp(a: Replica, b: Replica, stamp: string) {
    forall p :: p in a.Keys + b.Keys ==> ConflictName(p, stamp) !in a && ConflictName(p, stamp) !in b
  }

  predicate Visible(r: Rules, files: Replica, p: string) {
    p in files && !r.hidden(p)
  }

  /** The receiver `b` wants the sender's file at `p`. */
  predicate Wants(r: Rules, dir: Direction, a: Replica, b: Replica, p: string) {
    && Visible(r, a, p)
    && (p in b ==> a[p].content != b[p].content && (dir.Bidirectional? ==> b[p].mtime < a[p].mtime))
  }

  predicate Clashes(r: Rules, dir: Direction, a: Replica, b: Replica, p: string) {
    && Visible(r, a, p) && p in b && dir.Bidirectional?
    && a[p].content != b[p].content && b[p].mtime == a[p].mtime
  }

  /** The receiver's files after an exchange in which everything it asked for arrived, `now(p)` being the new
      modification time of a received file. */
  function Exchange(r: Rules, dir: Direction, a: Replica, b: Replica, entries: seq<Entry>, stamp: string, now: string -> int): Replica {
    var plan := Decide(r, dir, b, entries, stamp);
    plan.files + Received(plan.needed, a, now)
  }

  /** The files that were asked for, as they arrive. */
  function Received(needed: seq<string>, a: Replica, now: string -> int): (m: Replica)
    ensures forall p :: p in m <==> p in needed && p in a
    ensures forall p :: p in m ==> p in a && m[p] == File(a[p].content, now(p))
  {
    map p | p in needed && p in a :: File(a[p].content, now(p))
  }

  /** The receiver's conflicted files under their new names. */
  function Moved(r: Rules, dir: Direction, a: Replica, b: Replica, stamp: string): (m: Replica)
    ensures forall p :: Clashes(r, dir, a, b, p) ==> ConflictName(p, stamp) in m && m[ConflictName(p, stamp)] == b[p]
    ensures forall q :: q in m ==> exists p :: Clashes(r, dir, a, b, p) && q == ConflictName(p, stamp)
  {
    NamesDiffer(stamp);
    map p | p in b && Clashes(r, dir, a, b, p) :: ConflictName(p, stamp) := b[p]
  }

  function Untouched(r: Rules, dir: Direction, a: Replica, b: Replica): (m: Replica)
    ensures forall p :: p in m <==> p in b && !Clashes(r, dir, a, b, p)
    ensures forall p :: p in m ==> m[p] == b[p]
  {
    map p | p in b && !Clashes(r, dir, a, b, p) :: b[p]
  }

  function Fetched(r: Rules, dir: Direction, a: Replica, b: Replica, now: string -> int): (m: Replica)
    ensures forall p :: p in m <==> Wants(r, dir, a, b, p)
    ensures forall p :: p in m ==> p in a && m[p] == File(a[p].content, now(p))
  {
    map p | p in a && Wants(r, dir, a, b, p) :: File(a[p].content, now(p))
  }

  /** The same without the loop: who holds what, path by path. */
  function Merged(r: Rules, dir: Direction, a: Replica, b: Replica, stamp: string, now: string -> int): Replica {
    Untouched(r, dir, a, b) + Moved(r, dir, a, b, stamp) + Fetched(r, dir, a, b, now)
  }

  // ---------------------------------------------------------------- the loop is the path-by-path rule

  function PathSet(entries: seq<Entry>): set<string> {
    set e | e in entries :: e.path
  }

  predicate MovedAway(r: Rules, dir: Direction, a: Replica, b: Replica, seen: set<string>, p: string) {
    p in seen && Clashes(r, dir, a, b, p)
  }

  /** What the loop has done once it has seen the entries of the paths `seen`. */
  ghost predicate DoneSoFar(r: Rules, dir: Direction, a: Replica, b: Replica, seen: set<string>, stamp: string, plan: Plan) {
    && (forall p :: p in plan.needed <==> p in seen && Wants(r, dir, a, b, p))
    && (forall p :: p in b && MovedAway(r, dir, a, b, seen, p) ==>
          p !in plan.files && ConflictName(p, stamp) in plan.files && plan.files[ConflictName(p, stamp)] == b[p])
    && (forall p :: p in b && !MovedAway(r, dir, a, b, seen, p) ==> p in plan.files && plan.files[p] == b[p])
    && (forall q :: q in plan.files && q !in b ==> exists p :: p in b && MovedAway(r, dir, a, b, seen, p) && q == ConflictName(p, stamp))
  }

  /** An entry is what the sender's walk would say of its file. */
  predicate Truthful(r: Rules, a: Replica, e: Entry) {
    && Visible(r, a, e.path)
    && e.hash == r.hash(a[e.path].content) && e.mtime == a[e.path].mtime
  }

  /** An entry of the sender's manifest is judged by content and time, given that digests do not collide. */
  lemma JudgeEntry(r: Rules, dir: Direction, a: Replica, b: Replica, e: Entry)
    requires CollisionFree(r) && Truthful(r, a, e)
    ensures Judge(r, dir, b, e) == Fetch <==> Wants(r, dir, a, b, e.path)
    ensures Judge(r, dir, b, e) == Conflict <==> Clashes(r, dir, a, b, e.path)
  {
    JudgeIff(r, dir, b, e);
  }

  lemma DecideNext(r: Rules, dir: Direction, a: Replica, b: Replica, seen: set<string>, e: Entry, stamp: string, plan: Plan)
    requires CollisionFree(r) && FreshStamp(a, b, stamp) && Truthful(r, a, e) && e.path !in seen
    requires DoneSoFar(r, dir, a, b, seen, stamp, plan)
    ensures DoneSoFar(r, dir, a, b, seen + {e.path}, stamp, DecideOne(r, dir, plan, e, stamp))
  {
    var p := e.path;
    forall q | q in b
      ensures ConflictName(q, stamp) != p
    {
      assert q in a.Keys + b.Keys;
    }
    assert p in plan.files <==> p in b;
    assert Judge(r, dir, plan.files, e) == Judge(r, dir, b, e);
    JudgeEntry(r, dir, a, b, e);
    if Clashes(r, dir, a, b, p) {
      DecideConflict(r, dir, a, b, seen, p, stamp, plan);
    }
  }

  lemma SeenMoves(r: Rules, dir: Direction, a: Replica, b: Replica, seen: set<string>, p: string)
    requires p !in seen && Clashes(r, dir, a, b, p)
    ensures !MovedAway(r, dir, a, b, seen, p) && MovedAway(r, dir, a, b, seen + {p}, p)
    ensures forall q :: q != p ==> (MovedAway(r, dir, a, b, seen + {p}, q) <==> MovedAway(r, dir, a, b, seen, q))
  {
  }

  /** A file leaves one name and takes another, both of which are nobody else's. */
  lemma RenameMoves(r: Rules, dir: Direction, a: Replica, b: Replica, seen: set<string>, p: string, stamp: string, files: Replica, q: string)
    requires FreshStamp(a, b, stamp) && p !in seen && Clashes(r, dir, a, b, p) && p in files && files[p] == b[p] && q in b
    requires MovedAway(r, dir, a, b, seen, q) ==>
               q !in files && ConflictName(q, stamp) in files && files[ConflictName(q, stamp)] == b[q]
    requires !MovedAway(r, dir, a, b, seen, q) ==> q in files && files[q] == b[q]
    ensures var f := Rename(files, p, ConflictName(p, stamp));
            if MovedAway(r, dir, a, b, seen + {p}, q)
            then q !in f && ConflictName(q, stamp) in f && f[ConflictName(q, stamp)] == b[q]
            else q in f && f[q] == b[q]
  {
    NamesDiffer(stamp);
    SeenMoves(r, dir, a, b, seen, p);
    NewName(r, dir, a, b, stamp, p);
    NewName(r, dir, a, b, stamp, q);
  }

  lemma DecideConflict(r: Rules, dir: Direction, a: Replica, b: Replica, seen: set<string>, p: string, stamp: string, plan: Plan)
    requires FreshStamp(a, b, stamp) && p !in seen && Clashes(r, dir, a, b, p)
    requires DoneSoFar(r, dir, a, b, seen, stamp, plan)
    ensures p in plan.files
    ensures DoneSoFar(r, dir, a, b, seen + {p}, stamp, plan.(files := Rename(plan.files, p, ConflictName(p, stamp))))
  {
    SeenMoves(r, dir, a, b, seen, p);
    forall q | q in b
      ensures var f := Rename(plan.files, p, ConflictName(p, stamp));
              if MovedAway(r, dir, a, b, seen + {p}, q)
              then q !in f && ConflictName(q, stamp) in f && f[ConflictName(q, stamp)] == b[q]
              else q in f && f[q] == b[q]
    {
      RenameMoves(r, dir, a, b, seen, p, stamp, plan.files, q);
    }
  }

  lemma {:induction false} DecideSoFar(r: Rules, dir: Direction, a: Replica, b: Replica, entries: seq<Entry>, stamp: string)
    requires CollisionFree(r) && FreshStamp(a, b, stamp)
    requires forall i, j :: 0 <= i < j < |entries| ==> entries[i].path != entries[j].path
    requires forall e :: e in entries ==> Truthful(r, a, e)
    ensures DoneSoFar(r, dir, a, b, PathSet(entries), stamp, Decide(r, dir, b, entries, stamp))
  {
    if entries != [] {
      var n := |entries| - 1;
      var e := entries[n];
      DecideSoFar(r, dir, a, b, entries[..n], stamp);
      assert e in entries;
      assert PathSet(entries) == PathSet(entries[..n]) + {e.path};
      DecideNext(r, dir, a, b, PathSet(entries[..n]), e, stamp, Decide(r, dir, b, entries[..n], stamp));
    }
  }

  /** Who holds what at `q` after an exchange. */
  lemma MergedAt(r: Rules, dir: Direction, a: Replica, b: Replica, stamp: string, now: string -> int, q: string)
    ensures var m := Merged(r, dir, a, b, stamp, now);
            var moved := Moved(r, dir, a, b, stamp);
            if Wants(r, dir, a, b, q) then q in m && m[q] == File(a[q].content, now(q))
            else if q in moved then q in m && m[q] == moved[q]
            else if q in b && !Clashes(r, dir, a, b, q) then q in m && m[q] == b[q]
            else q !in m
  {
  }

  lemma NewName(r: Rules, dir: Direction, a: Replica, b: Replica, stamp: string, p: string)
    requires FreshStamp(a, b, stamp) && p in b
    ensures ConflictName(p, stamp) !in a && ConflictName(p, stamp) !in b
    ensures !Wants(r, dir, a, b, ConflictName(p, stamp)) && !Clashes(r, dir, a, b, ConflictName(p, stamp))
  {
    assert p in a.Keys + b.Keys;
  }

  /** A path that either side has is nobody's conflict name. */
  lemma NotMoved(r: Rules, dir: Direction, a: Replica, b: Replica, stamp: string, p: string)
    requires FreshStamp(a, b, stamp) && (p in a || p in b)
    ensures p !in Moved(r, dir, a, b, stamp)
  {
    forall q | Clashes(r, dir, a, b, q)
      ensures ConflictName(q, stamp) != p
    {
      NewName(r, dir, a, b, stamp, q);
    }
  }

  /** What the loop has left of the receiver's own files. */
  lemma LeftAt(r: Rules, dir: Direction, a: Replica, b: Replica, stamp: string, plan: Plan, seen: set<string>, q: string)
    requires FreshStamp(a, b, stamp) && DoneSoFar(r, dir, a, b, seen, stamp, plan)
    requires forall p :: Visible(r, a, p) ==> p in seen
    ensures if q in Moved(r, dir, a, b, stamp) then q in plan.files && plan.files[q] == Moved(r, dir, a, b, stamp)[q]
            else if q in b && !Clashes(r, dir, a, b, q) then q in plan.files && plan.files[q] == b[q]
            else q !in plan.files
  {
    assert forall p :: Clashes(r, dir, a, b, p) <==> p in b && MovedAway(r, dir, a, b, seen, p);
    if q in Moved(r, dir, a, b, stamp) {
      var p :| Clashes(r, dir, a, b, p) && q == ConflictName(p, stamp);
      NewName(r, dir, a, b, stamp, p);
    }
  }

  lemma PlanAt(r: Rules, dir: Direction, a: Replica, b: Replica, stamp: string, plan: Plan, now: string -> int, seen: set<string>, q: string)
    requires FreshStamp(a, b, stamp) && DoneSoFar(r, dir, a, b, seen, stamp, plan)
    requires forall p :: Visible(r, a, p) ==> p in seen
    ensures var x, m := plan.files + Received(plan.needed, a, now), Merged(r, dir, a, b, stamp, now);
            (q in x <==> q in m) && (q in x ==> x[q] == m[q])
  {
    MergedAt(r, dir, a, b, stamp, now, q);
    LeftAt(r, dir, a, b, stamp, plan, seen, q);
    assert q in plan.needed <==> Wants(r, dir, a, b, q);
  }

  /** For the sender's manifest, in whatever order it lists the files, the loop and the transfer together give
      the path-by-path result. */
  lemma ExchangeIsMerged(r: Rules, dir: Direction, a: Replica, b: Replica, entries: seq<Entry>, stamp: string, now: string -> int)
    requires CollisionFree(r) && FreshStamp(a, b, stamp) && IsManifest(r, a, entries)
    ensures Exchange(r, dir, a, b, entries, stamp, now) == Merged(r, dir, a, b, stamp, now)
    ensures forall p :: p in Decide(r, dir, b, entries, stamp).needed <==> Wants(r, dir, a, b, p)
  {
    DecideSoFar(r, dir, a, b, entries, stamp);
    AllSeen(r, a, entries);
    var plan := Decide(r, dir, b, entries, stamp);
    PlanGivesMerged(r, dir, a, b, stamp, plan, now, PathSet(entries));
  }

  lemma SameReplica(x: Replica, m: Replica)
    requires forall q :: (q in x <==> q in m) && (q in x ==> x[q] == m[q])
    ensures x == m
  {
  }

  lemma PlanGivesMerged(r: Rules, dir: Direction, a: Replica, b: Replica, stamp: string, plan: Plan, now: string -> int, seen: set<string>)
    requires FreshStamp(a, b, stamp) && DoneSoFar(r, dir, a, b, seen, stamp, plan)
    requires forall p :: Visible(r, a, p) ==> p in seen
    ensures plan.files + Received(plan.needed, a, now) == Merged(r, dir, a, b, stamp, now)
  {
    var x, m := plan.files + Received(plan.needed, a, now), Merged(r, dir, a, b, stamp, now);
    forall q
      ensures (q in x <==> q in m) && (q in x ==> x[q] == m[q])
    {
      PlanAt(r, dir, a, b, stamp, plan, now, seen, q);
    }
    SameReplica(x, m);
  }

  predicate PathsAt(needed: seq<string>, entries: seq<Entry>, from: seq<nat>) {
    && Picks(from, |entries|) && |from| == |needed|
    && forall i :: 0 <= i < |from| ==> needed[i] == entries[from[i]].path
  }

  lemma PathsAtSnoc(needed: seq<string>, entries: seq<Entry>, from: seq<nat>)
    requires entries != [] && PathsAt(needed, entries[..|entries| - 1], from)
    ensures PathsAt(needed, entries, from)
    ensures PathsAt(needed + [entries[|entries| - 1].path], entries, from + [|entries| - 1])
  {
    PicksMore(from, |entries| - 1);
  }

  /** The request follows the manifest: each path on it is that of an entry, in the order of the entries. */
  lemma {:induction false} RequestFollowsManifest(r: Rules, dir: Direction, files: Replica, entries: seq<Entry>, stamp: string)
      returns (from: seq<nat>)
    ensures PathsAt(Decide(r, dir, files, entries, stamp).needed, entries, from)
  {
    if entries == [] {
      from := [];
    } else {
      var n := |entries| - 1;
      var before := RequestFollowsManifest(r, dir, files, entries[..n], stamp);
      var plan := Decide(r, dir, files, entries[..n], stamp);
      PathsAtSnoc(plan.needed, entries, before);
      from := if Judge(r, dir, plan.files, entries[n]) == Fetch then before + [n] else before;
    }
  }

  /** For the sender's manifest the request is exact: what the receiver wants, each path once, in the order in which the
      manifest lists it, and nothing else. */
  lemma RequestIsExact(r: Rules, dir: Direction, a: Replica, b: Replica, entries: seq<Entry>, stamp: string) returns (from: seq<nat>)
    requires CollisionFree(r) && FreshStamp(a, b, stamp) && IsManifest(r, a, entries)
    ensures var needed := Decide(r, dir, b, entries, stamp).needed;
            && Picks(from, |entries|) && |from| == |needed|
            && (forall i :: 0 <= i < |from| ==> needed[i] == entries[from[i]].path)
            && (forall i, j :: 0 <= i < j < |needed| ==> needed[i] != needed[j])
            && (forall j :: 0 <= j < |entries| ==> (j in from <==> Wants(r, dir, a, b, entries[j].path)))
            && (forall p :: p in needed <==> Wants(r, dir, a, b, p))
  {
    from := RequestFollowsManifest(r, dir, b, entries, stamp);
    DecideSoFar(r, dir, a, b, entries, stamp);
    AllSeen(r, a, entries);
    var needed := Decide(r, dir, b, entries, stamp).needed;
    forall j | 0 <= j < |entries|
      ensures j in from <==> Wants(r, dir, a, b, entries[j].path)
    {
      PickedIff(entries, needed, from, j);
      assert entries[j] in entries;
      assert entries[j].path in PathSet(entries);
    }
  }

  lemma PickedIff(entries: seq<Entry>, needed: seq<string>, from: seq<nat>, j: nat)
    requires forall i, j :: 0 <= i < j < |entries| ==> entries[i].path != entries[j].path
    requires Picks(from, |entries|) && |from| == |needed| && j < |entries|
    requires forall i :: 0 <= i < |from| ==> needed[i] == entries[from[i]].path
    ensures j in from <==> entries[j].path in needed
  {
    if j in from {
      var i :| 0 <= i < |from| && from[i] == j;
      assert needed[i] == entries[j].path;
    }
    if i :| 0 <= i < |needed| && needed[i] == entries[j].path {
      assert from[i] == j;
    }
  }

  lemma AllSeen(r: Rules, a: Replica, entries: seq<Entry>)
    requires IsManifest(r, a, entries)
    ensures forall p :: Visible(r, a, p) ==> p in PathSet(entries)
  {
    forall p | Visible(r, a, p)
      ensures p in PathSet(entries)
    {
      var e :| e in entries && e.path == p;
    }
  }

  // ---------------------------------------------------------------- what one exchange keeps

  /** No update is lost: whatever the receiver held is still there under its name, or under its conflict name, or
      was replaced by the sender's file, which both ways happens only to a strictly older one. Hidden files are
      never touched, and nothing appears that neither side had. */
  lemma NothingIsLost(r: Rules, dir: Direction, a: Replica, b: Replica, stamp: string, now: string -> int)
    requires FreshStamp(a, b, stamp)
    ensures var m := Merged(r, dir, a, b, stamp, now);
            && (forall p :: p in b ==>
                  || (p in m && m[p] == b[p])
                  || (Clashes(r, dir, a, b, p) && ConflictName(p, stamp) in m && m[ConflictName(p, stamp)] == b[p])
                  || (Visible(r, a, p) && p in m && m[p].content == a[p].content
                      && (dir.Bidirectional? ==> b[p].mtime < a[p].mtime)))
            && (forall p :: p in b && r.hidden(p) ==> p in m && m[p] == b[p])
            && (forall q :: q in m ==>
                  || (q in b && m[q] == b[q])
                  || (Visible(r, a, q) && m[q].content == a[q].content)
                  || (exists p :: Clashes(r, dir, a, b, p) && q == ConflictName(p, stamp) && m[q] == b[p]))
  {
    var m := Merged(r, dir, a, b, stamp, now);
    forall p | p in b
      ensures || (p in m && m[p] == b[p])
              || (Clashes(r, dir, a, b, p) && ConflictName(p, stamp) in m && m[ConflictName(p, stamp)] == b[p])
              || (Visible(r, a, p) && p in m && m[p].content == a[p].content
                  && (dir.Bidirectional? ==> b[p].mtime < a[p].mtime))
      ensures r.hidden(p) ==> p in m && m[p] == b[p]
    {
      MergedAt(r, dir, a, b, stamp, now, p);
      MergedAt(r, dir, a, b, stamp, now, ConflictName(p, stamp));
      NewName(r, dir, a, b, stamp, p);
      NamesDiffer(stamp);
      NotMoved(r, dir, a, b, stamp, p);
    }
    forall q | q in m
      ensures || (q in b && m[q] == b[q])
              || (Visible(r, a, q) && m[q].content == a[q].content)
              || (exists p :: Clashes(r, dir, a, b, p) && q == ConflictName(p, stamp) && m[q] == b[p])
    {
      MergedAt(r, dir, a, b, stamp, now, q);
      if q in Moved(r, dir, a, b, stamp) && !Wants(r, dir, a, b, q) {
        var p :| Clashes(r, dir, a, b, p) && q == ConflictName(p, stamp);
        assert m[q] == b[p];
      }
    }
  }

  /** One way, the receiver ends up agreeing with the sender on all the sender shows, whatever the times, and
      keeps everything else as it was. */
  lemma OneWayAgrees(r: Rules, dir: Direction, a: Replica, b: Replica, stamp: string, now: string -> int)
    requires !dir.Bidirectional?
    ensures var m := Merged(r, dir, a, b, stamp, now);
            && (forall p :: Visible(r, a, p) ==> p in m && m[p].content == a[p].content)
            && (forall p :: !Visible(r, a, p) ==> (p in m <==> p in b) && (p in m ==> m[p] == b[p]))
  {
    forall p
      ensures var m := Merged(r, dir, a, b, stamp, now);
              && (Visible(r, a, p) ==> p in m && m[p].content == a[p].content)
              && (!Visible(r, a, p) ==> (p in m <==> p in b) && (p in m ==> m[p] == b[p]))
    {
      MergedAt(r, dir, a, b, stamp, now, p);
    }
  }
}
