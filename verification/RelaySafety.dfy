/** What holds of the relay in every reachable state, however the handlers interleave. */
module RelaySafety {
  import opened RelayHub

  // ---------------------------------------------------------------- sessions are displaced only by their own kind

  lemma EnteredStaysAtEntry(h: Hub, step: Step, x: nat)
    requires IsEntry(step)
    requires Enabled(h, step) && x < |h.sessions| && Entered(h.sessions[x].pc)
    ensures x < |Next(h, step).sessions| && Entered(Next(h, step).sessions[x].pc)
  {
  }

  lemma EnteredStaysLater(h: Hub, step: Step, x: nat)
    requires !IsEntry(step)
    requires Enabled(h, step) && x < |h.sessions| && Entered(h.sessions[x].pc)
    ensures x < |Next(h, step).sessions| && Entered(Next(h, step).sessions[x].pc)
  {
  }

  lemma EnteredStays(h: Hub, step: Step, x: nat)
    requires Enabled(h, step) && x < |h.sessions| && Entered(h.sessions[x].pc)
    ensures x < |Next(h, step).sessions| && Entered(Next(h, step).sessions[x].pc)
  {
    if IsEntry(step) {
      EnteredStaysAtEntry(h, step, x);
    } else {
      EnteredStaysLater(h, step, x);
    }
  }

  lemma TableStays(h: Hub, step: Step, r: nat)
    requires Enabled(h, step) && r < |h.rooms| && !step.Insert? && !step.RemoveIf?
    ensures r < |Next(h, step).rooms| && Next(h, step).rooms[r].members == h.rooms[r].members
  {
  }

  /** What one step does to one member table: nothing, unless it is an insert or a conditional removal there. */
  lemma TableChange(h: Hub, step: Step, r: nat)
    requires Enabled(h, step) && r < |h.rooms|
    ensures r < |Next(h, step).rooms|
    ensures var m, m' := h.rooms[r].members, Next(h, step).rooms[r].members;
            || m' == m
            || (step.Insert? && h.sessions[step.s].room == r && m' == Inserted(m, h.sessions[step.s].reg.peerId, step.s))
            || (&& step.RemoveIf? && h.sessions[step.s].pc.found == r
                && Holds(m, h.sessions[step.s].reg.peerId, step.s) && m' == Without(m, h.sessions[step.s].reg.peerId))
  {
    if !step.Insert? && !step.RemoveIf? {
      TableStays(h, step, r);
    }
  }

  /** A registration closes the session it replaces. */
  lemma InsertCloses(h: Hub, s: nat, order: seq<string>)
    requires Enabled(h, Insert(s, order))
    ensures var members, id := h.rooms[h.sessions[s].room].members, h.sessions[s].reg.peerId;
            id in members && members[id] != s ==>
              members[id] < |InsertStep(h, s, order).sessions| && InsertStep(h, s, order).sessions[members[id]].closed
  {
  }

  /** A mapped session stops being mapped only when it removes itself, or when a later registration with
      the same peer ID takes its place and closes it. */
  lemma DisplacedOnlyBy(h: Hub, step: Step, s: nat)
    requires Tables(h) && Enabled(h, step)
    requires s < |h.sessions| && Entered(h.sessions[s].pc) && SessionOk(h, s) && Mapped(h, s)
    ensures s < |Next(h, step).sessions| && SessionOk(Next(h, step), s)
    ensures !Mapped(Next(h, step), s) ==>
              || (step == RemoveIf(s) && h.sessions[s].pc.found == h.sessions[s].room)
              || (&& step.Insert? && step.s != s
                  && h.sessions[step.s].room == h.sessions[s].room
                  && h.sessions[step.s].reg.peerId == h.sessions[s].reg.peerId
                  && Holds(Next(h, step).rooms[h.sessions[s].room].members, h.sessions[s].reg.peerId, step.s)
                  && Next(h, step).sessions[s].closed)
  {
    TablesStep(h, step);
    TableChange(h, step, h.sessions[s].room);
    if step.Insert? {
      InsertCloses(h, step.s, step.order);
    }
  }

  lemma QuietNotGone(h: Hub, step: Step, s: nat)
    requires Tables(h) && Enabled(h, step) && s < |h.sessions|
    requires !step.Connect? && !step.Lookup? && !step.Insert? && !step.RemoveIf?
    ensures |Next(h, step).sessions| == |h.sessions|
    ensures Gone(Next(h, step).sessions[s].pc) ==> Gone(h.sessions[s].pc)
  {
    QuietSteps(h, step);
    assert Advances(h, h.sessions[s], Next(h, step).sessions[s]);
  }

  /** A leave is on its way only if the session took itself out of the table while it was still mapped. */
  lemma GoneOnlyByOwnRemoval(h: Hub, step: Step, s: nat)
    requires Tables(h) && Enabled(h, step) && s < |h.sessions| && SessionOk(h, s)
    requires s < |Next(h, step).sessions| && Gone(Next(h, step).sessions[s].pc) && !Gone(h.sessions[s].pc)
    ensures step == RemoveIf(s) && h.sessions[s].pc.announce <== Next(h, step).sessions[s].pc.Leaving?
    ensures step == RemoveIf(s) && Entered(h.sessions[s].pc) && Mapped(h, s) && !Mapped(Next(h, step), s)
  {
    TablesStep(h, step);
    if !step.Connect? && !step.Lookup? && !step.Insert? && !step.RemoveIf? {
      QuietNotGone(h, step, s);
    }
    assert step.RemoveIf?;
    assert RoomOk(h, h.sessions[s].pc.found);
  }

  /** Entered, but no longer the session its room maps, and not because it removed itself. */
  predicate Displaced(h: Hub, s: nat) {
    && s < |h.sessions| && Entered(h.sessions[s].pc) && h.sessions[s].room < |h.rooms|
    && !Mapped(h, s) && !Gone(h.sessions[s].pc)
  }

  lemma InsertDisplaces(h: Hub, s: nat, order: seq<string>)
    requires Tables(h) && Enabled(h, Insert(s, order))
    ensures var members := h.rooms[h.sessions[s].room].members;
            var id := h.sessions[s].reg.peerId;
            id in members ==>
              members[id] != s && Displaced(Next(h, Insert(s, order)), members[id])
              && Next(h, Insert(s, order)).sessions[members[id]].closed
  {
    assert RoomOk(h, h.sessions[s].room);
    TablesStep(h, Insert(s, order));
  }

  lemma NeverMappedAgain(h: Hub, step: Step, s: nat)
    requires Tables(h) && Enabled(h, step) && Displaced(h, s)
    ensures h.sessions[s].room < |Next(h, step).rooms|
    ensures !Holds(Next(h, step).rooms[h.sessions[s].room].members, h.sessions[s].reg.peerId, s)
  {
    TableChange(h, step, h.sessions[s].room);
  }

  lemma DisplacedStep(h: Hub, step: Step, s: nat)
    requires Tables(h) && Enabled(h, step) && Displaced(h, s)
    ensures Displaced(Next(h, step), s)
  {
    TablesStep(h, step);
    EnteredStays(h, step, s);
    NeverMappedAgain(h, step, s);
    if Gone(Next(h, step).sessions[s].pc) {
      GoneOnlyByOwnRemoval(h, step, s);
    }
  }

  /** In every run, from the moment a registration with the same ID has replaced it, a session is never
      mapped again and never reaches the point where it would broadcast a leave. */
  lemma {:induction false} ReplacedNeverLeaves(run: seq<Hub>, steps: seq<Step>, i: nat, j: nat, s: nat)
    requires Run(run, steps) && i <= j <= |steps| && Displaced(run[i], s)
    ensures Displaced(run[j], s) && !run[j].sessions[s].pc.Leaving?
  {
    if i < j {
      ReplacedNeverLeaves(run, steps, i, j - 1, s);
      assert Linked(run, steps, j - 1);
      TablesAlways(run, steps, j - 1);
      DisplacedStep(run[j - 1], steps[j - 1], s);
    }
  }

  /** Neither closed nor exiting. */
  predicate Live(x: Session) {
    Present(x.pc) && !x.pc.Cleaning? && !x.pc.Removing? && !x.closed
  }

  /** Each room has at most one live session per peer ID, and it is the one its table maps. */
  lemma OneLiveSessionPerId(run: seq<Hub>, steps: seq<Step>, i: nat, s: nat, t: nat)
    requires Run(run, steps) && i <= |steps|
    requires s < |run[i].sessions| && t < |run[i].sessions|
    requires Live(run[i].sessions[s]) && Live(run[i].sessions[t])
    requires run[i].sessions[s].room == run[i].sessions[t].room
    requires run[i].sessions[s].reg.peerId == run[i].sessions[t].reg.peerId
    ensures s == t
    ensures run[i].sessions[s].room < |run[i].rooms| && Mapped(run[i], s)
  {
    TablesAlways(run, steps, i);
    assert SessionOk(run[i], s) && SessionOk(run[i], t);
  }

  // ---------------------------------------------------------------- mutual discovery

  /** The handler has told its room about itself and entered the read loop. */
  predicate PastAnnounce(pc: Pc) {
    || pc.Reading? || pc.Routing? || pc.Leaving?
    || ((pc.Cleaning? || pc.Removing? || pc.Unmapping?) && pc.announce)
  }

  function GreetedCount(x: Session): nat {
    if x.pc.Greeting? then x.pc.next
    else if x.pc.Announcing? || PastAnnounce(x.pc) then |x.existing|
    else 0
  }

  /** The snapshot entries the handler has got through have been written to its own client. */
  predicate Greeted(x: Session) {
    && GreetedCount(x) <= |x.existing|
    && forall i :: 0 <= i < GreetedCount(x) ==> Join(x.existing[i]) in x.out
  }

  /** `b` came later: its snapshot has `a`, and once it has announced itself `a` has been told. */
  predicate CameAfter(b: Session, a: Session) {
    && InfoOf(a.reg) in b.existing
    && (PastAnnounce(b.pc) ==> Join(InfoOf(b.reg)) in a.out)
  }

  predicate Acquainted(h: Hub, r: nat)
    requires r < |h.rooms| && RoomOk(h, r)
  {
    var members := h.rooms[r].members;
    forall p, q :: p in members && q in members && p != q ==>
      || CameAfter(h.sessions[members[p]], h.sessions[members[q]])
      || CameAfter(h.sessions[members[q]], h.sessions[members[p]])
  }

  predicate Discovery(h: Hub) {
    && Tables(h)
    && (forall s :: 0 <= s < |h.sessions| ==> Greeted(h.sessions[s]))
    && (forall s :: 0 <= s < |h.sessions| && !Entered(h.sessions[s].pc) ==> h.sessions[s].existing == [])
    && (forall r :: 0 <= r < |h.rooms| ==> Acquainted(h, r))
  }

  lemma OnlyOneMovesAtEntry(h: Hub, step: Step, t: nat)
    requires IsEntry(step)
    requires Enabled(h, step) && t < |h.sessions|
    requires step.Connect? || step.s != t
    ensures t < |Next(h, step).sessions|
    ensures var x, y := h.sessions[t], Next(h, step).sessions[t];
            y.pc == x.pc && y.existing == x.existing && y.reg == x.reg && y.room == x.room
  {
  }

  lemma OnlyOneMovesLater(h: Hub, step: Step, t: nat)
    requires !IsEntry(step)
    requires Enabled(h, step) && t < |h.sessions|
    requires step.Connect? || step.s != t
    ensures t < |Next(h, step).sessions|
    ensures var x, y := h.sessions[t], Next(h, step).sessions[t];
            y.pc == x.pc && y.existing == x.existing && y.reg == x.reg && y.room == x.room
  {
  }

  /** A step moves only its own handler: every other session keeps its place and its snapshot. */
  lemma OnlyOneMoves(h: Hub, step: Step, t: nat)
    requires Enabled(h, step) && t < |h.sessions|
    requires step.Connect? || step.s != t
    ensures t < |Next(h, step).sessions|
    ensures var x, y := h.sessions[t], Next(h, step).sessions[t];
            y.pc == x.pc && y.existing == x.existing && y.reg == x.reg && y.room == x.room
  {
    if IsEntry(step) {
      OnlyOneMovesAtEntry(h, step, t);
    } else {
      OnlyOneMovesLater(h, step, t);
    }
  }

  lemma MoverCountAtEntry(h: Hub, step: Step)
    requires IsEntry(step)
    requires Enabled(h, step) && !step.Connect? && !step.Insert?
    requires GreetedCount(h.sessions[step.s]) <= |h.sessions[step.s].existing|
    ensures step.s < |Next(h, step).sessions|
    ensures var x, y := h.sessions[step.s], Next(h, step).sessions[step.s];
            && y.existing == x.existing
            && GreetedCount(y) <= |y.existing|
            && (!Entered(y.pc) ==> !Entered(x.pc))
            && (GreetedCount(y) <= GreetedCount(x)
                || (x.pc.Greeting? && GreetedCount(y) == x.pc.next + 1 && Join(x.existing[x.pc.next]) in y.out))
  {
  }

  lemma MoverCountLater(h: Hub, step: Step)
    requires Enabled(h, step) && !IsEntry(step)
    requires GreetedCount(h.sessions[step.s]) <= |h.sessions[step.s].existing|
    ensures step.s < |Next(h, step).sessions|
    ensures var x, y := h.sessions[step.s], Next(h, step).sessions[step.s];
            && y.existing == x.existing && GreetedCount(y) <= |y.existing|
            && (!Entered(y.pc) ==> !Entered(x.pc)) && GreetedCount(y) <= GreetedCount(x)
  {
  }

  lemma MoverCount(h: Hub, step: Step)
    requires Enabled(h, step) && !step.Connect? && !step.Insert?
    requires GreetedCount(h.sessions[step.s]) <= |h.sessions[step.s].existing|
    ensures step.s < |Next(h, step).sessions|
    ensures var x, y := h.sessions[step.s], Next(h, step).sessions[step.s];
            && y.existing == x.existing
            && GreetedCount(y) <= |y.existing|
            && (!Entered(y.pc) ==> !Entered(x.pc))
            && (GreetedCount(y) <= GreetedCount(x)
                || (x.pc.Greeting? && GreetedCount(y) == x.pc.next + 1 && Join(x.existing[x.pc.next]) in y.out))
  {
    if IsEntry(step) {
      MoverCountAtEntry(h, step);
    } else {
      MoverCountLater(h, step);
    }
  }

  lemma GreetedInsert(h: Hub, s: nat, order: seq<string>)
    requires Enabled(h, Insert(s, order))
    ensures s < |InsertStep(h, s, order).sessions|
    ensures Greeted(InsertStep(h, s, order).sessions[s]) && Entered(InsertStep(h, s, order).sessions[s].pc)
  {
  }

  lemma GreetedKept(x: Session, y: Session)
    requires Greeted(x) && y.existing == x.existing && x.out <= y.out && GreetedCount(y) <= |y.existing|
    requires GreetedCount(y) <= GreetedCount(x)
             || (x.pc.Greeting? && GreetedCount(y) == x.pc.next + 1 && Join(x.existing[x.pc.next]) in y.out)
    ensures Greeted(y)
  {
    assert forall m :: m in x.out ==> m in y.out;
  }

  lemma GreetedMover(h: Hub, step: Step)
    requires Discovery(h) && Enabled(h, step) && !step.Connect?
    ensures step.s < |Next(h, step).sessions|
    ensures Greeted(Next(h, step).sessions[step.s])
    ensures !Entered(Next(h, step).sessions[step.s].pc) ==> Next(h, step).sessions[step.s].existing == []
  {
    if step.Insert? {
      GreetedInsert(h, step.s, step.order);
    } else {
      assert Greeted(h.sessions[step.s]);
      MoverCount(h, step);
      TablesStep(h, step);
      GreetedKept(h.sessions[step.s], Next(h, step).sessions[step.s]);
    }
  }

  lemma GreetedOther(h: Hub, step: Step, s: nat)
    requires Discovery(h) && Enabled(h, step) && s < |h.sessions| && (step.Connect? || step.s != s)
    ensures s < |Next(h, step).sessions| && Greeted(Next(h, step).sessions[s])
    ensures !Entered(Next(h, step).sessions[s].pc) ==> Next(h, step).sessions[s].existing == []
  {
    TablesStep(h, step);
    OnlyOneMoves(h, step, s);
    GreetedKept(h.sessions[s], Next(h, step).sessions[s]);
  }

  lemma NewcomerGreeted(h: Hub, step: Step, s: nat)
    requires Enabled(h, step) && |h.sessions| <= s < |Next(h, step).sessions|
    ensures Greeted(Next(h, step).sessions[s]) && Next(h, step).sessions[s].existing == []
  {
  }

  lemma GreetedStep(h: Hub, step: Step, s: nat)
    requires Discovery(h) && Enabled(h, step) && s < |Next(h, step).sessions|
    ensures Greeted(Next(h, step).sessions[s])
    ensures !Entered(Next(h, step).sessions[s].pc) ==> Next(h, step).sessions[s].existing == []
  {
    if s >= |h.sessions| {
      NewcomerGreeted(h, step, s);
    } else if step.Connect? || step.s != s {
      GreetedOther(h, step, s);
    } else {
      GreetedMover(h, step);
    }
  }

  lemma ExistingStaysAtEntry(h: Hub, step: Step, b: nat)
    requires IsEntry(step)
    requires Enabled(h, step) && b < |h.sessions| && Entered(h.sessions[b].pc)
    ensures b < |Next(h, step).sessions| && Next(h, step).sessions[b].existing == h.sessions[b].existing
  {
  }

  lemma ExistingStaysLater(h: Hub, step: Step, b: nat)
    requires !IsEntry(step)
    requires Enabled(h, step) && b < |h.sessions| && Entered(h.sessions[b].pc)
    ensures b < |Next(h, step).sessions| && Next(h, step).sessions[b].existing == h.sessions[b].existing
  {
  }

  lemma ExistingStays(h: Hub, step: Step, b: nat)
    requires Enabled(h, step) && b < |h.sessions| && Entered(h.sessions[b].pc)
    ensures b < |Next(h, step).sessions| && Next(h, step).sessions[b].existing == h.sessions[b].existing
  {
    if IsEntry(step) {
      ExistingStaysAtEntry(h, step, b);
    } else {
      ExistingStaysLater(h, step, b);
    }
  }

  lemma OnlyAnnouncePassesAtEntry(h: Hub, step: Step, b: nat)
    requires IsEntry(step)
    requires Enabled(h, step) && b < |h.sessions| && b < |Next(h, step).sessions|
    requires PastAnnounce(Next(h, step).sessions[b].pc) && !PastAnnounce(h.sessions[b].pc)
    ensures step == Announce(b)
  {
  }

  lemma NobodyPassesLater(h: Hub, step: Step, b: nat)
    requires Enabled(h, step) && !IsEntry(step) && b < |h.sessions|
    ensures b < |Next(h, step).sessions|
    ensures PastAnnounce(Next(h, step).sessions[b].pc) ==> PastAnnounce(h.sessions[b].pc)
  {
  }

  lemma OnlyAnnouncePasses(h: Hub, step: Step, b: nat)
    requires Enabled(h, step) && b < |h.sessions| && b < |Next(h, step).sessions|
    requires PastAnnounce(Next(h, step).sessions[b].pc) && !PastAnnounce(h.sessions[b].pc)
    ensures step == Announce(b)
  {
    if IsEntry(step) {
      OnlyAnnouncePassesAtEntry(h, step, b);
    } else {
      NobodyPassesLater(h, step, b);
    }
  }

  lemma AnnounceTells(h: Hub, b: nat, a: nat)
    requires Enabled(h, Announce(b)) && a < |h.sessions| && b != a
    requires h.sessions[b].room == h.sessions[a].room < |h.rooms| && Mapped(h, a)
    requires h.sessions[a].reg.peerId != h.sessions[b].reg.peerId
    ensures a < |Next(h, Announce(b)).sessions| && Join(InfoOf(h.sessions[b].reg)) in Next(h, Announce(b)).sessions[a].out
  {
    assert IsMember(h.rooms[h.sessions[b].room].members, a);
    assert Next(h, Announce(b)).sessions[a] == Say(h.sessions[a], Join(InfoOf(h.sessions[b].reg)));
  }

  /** What happens to two sessions that stay mapped in one room. */
  lemma CameAfterStep(h: Hub, step: Step, b: nat, a: nat)
    requires Tables(h) && Enabled(h, step)
    requires b < |h.sessions| && a < |h.sessions| && b != a
    requires h.sessions[b].room == h.sessions[a].room < |h.rooms|
    requires h.sessions[a].reg.peerId != h.sessions[b].reg.peerId
    requires Entered(h.sessions[b].pc) && Entered(h.sessions[a].pc) && Mapped(h, a)
    requires CameAfter(h.sessions[b], h.sessions[a])
    ensures |h.sessions| <= |Next(h, step).sessions|
    ensures CameAfter(Next(h, step).sessions[b], Next(h, step).sessions[a])
  {
    TablesStep(h, step);
    ExistingStays(h, step, b);
    if PastAnnounce(Next(h, step).sessions[b].pc) && !PastAnnounce(h.sessions[b].pc) {
      OnlyAnnouncePasses(h, step, b);
      AnnounceTells(h, b, a);
    }
  }

  lemma SnapshotHas(h: Hub, s: nat, order: seq<string>, q: string)
    requires Tables(h) && Enabled(h, Insert(s, order))
    requires q in h.rooms[h.sessions[s].room].members && q != h.sessions[s].reg.peerId
    ensures var t := h.rooms[h.sessions[s].room].members[q];
            t < |h.sessions| && InfoOf(h.sessions[t].reg) in Next(h, Insert(s, order)).sessions[s].existing
  {
    assert q in order;
    var i :| 0 <= i < |order| && order[i] == q;
    var x := Next(h, Insert(s, order)).sessions[s];
    assert x.existing[i] == InfoOf(h.sessions[h.rooms[h.sessions[s].room].members[q]].reg);
  }

  lemma NewcomerCameAfter(h: Hub, s: nat, order: seq<string>, q: string)
    requires Tables(h) && Enabled(h, Insert(s, order))
    requires q in h.rooms[h.sessions[s].room].members && q != h.sessions[s].reg.peerId
    ensures |h.sessions| <= |Next(h, Insert(s, order)).sessions|
    ensures CameAfter(Next(h, Insert(s, order)).sessions[s], Next(h, Insert(s, order)).sessions[h.rooms[h.sessions[s].room].members[q]])
  {
    SnapshotHas(h, s, order, q);
    InsertExtends(h, s, order);
  }

  /** Two sessions mapped in one room, of which one came after the other. */
  predicate Met(h: Hub, a: nat, b: nat)
    requires a < |h.sessions| && b < |h.sessions|
  {
    CameAfter(h.sessions[a], h.sessions[b]) || CameAfter(h.sessions[b], h.sessions[a])
  }

  lemma MetStep(h: Hub, step: Step, r: nat, p: string, q: string)
    requires Discovery(h) && Enabled(h, step) && r < |h.rooms|
    requires p in h.rooms[r].members && q in h.rooms[r].members && p != q
    ensures RoomOk(h, r) && |h.sessions| <= |Next(h, step).sessions|
    ensures Met(Next(h, step), h.rooms[r].members[p], h.rooms[r].members[q])
  {
    assert RoomOk(h, r) && Acquainted(h, r);
    var a, b := h.rooms[r].members[p], h.rooms[r].members[q];
    if CameAfter(h.sessions[a], h.sessions[b]) {
      CameAfterStep(h, step, a, b);
    } else {
      CameAfterStep(h, step, b, a);
    }
  }

  lemma MetInsert(h: Hub, s: nat, order: seq<string>, p: string, q: string)
    requires Discovery(h) && Enabled(h, Insert(s, order)) && p != q
    requires var members := Inserted(h.rooms[h.sessions[s].room].members, h.sessions[s].reg.peerId, s);
             p in members && q in members
    ensures var members := Inserted(h.rooms[h.sessions[s].room].members, h.sessions[s].reg.peerId, s);
            && members[p] < |Next(h, Insert(s, order)).sessions| && members[q] < |Next(h, Insert(s, order)).sessions|
            && Met(Next(h, Insert(s, order)), members[p], members[q])
  {
    var id := h.sessions[s].reg.peerId;
    assert RoomOk(h, h.sessions[s].room);
    if p == id {
      NewcomerCameAfter(h, s, order, q);
    } else if q == id {
      NewcomerCameAfter(h, s, order, p);
    } else {
      MetStep(h, Insert(s, order), h.sessions[s].room, p, q);
    }
  }

  lemma NewRoomsAreEmpty(h: Hub, step: Step, r: nat)
    requires Enabled(h, step) && |h.rooms| <= r < |Next(h, step).rooms|
    ensures Next(h, step).rooms[r].members == map[]
  {
  }

  lemma MetAfter(h: Hub, step: Step, r: nat, p: string, q: string)
    requires Discovery(h) && Enabled(h, step) && r < |h.rooms| && r < |Next(h, step).rooms| && p != q
    requires p in Next(h, step).rooms[r].members && q in Next(h, step).rooms[r].members
    ensures var h', members := Next(h, step), Next(h, step).rooms[r].members;
            && members[p] < |h'.sessions| && members[q] < |h'.sessions|
            && Met(h', members[p], members[q])
  {
    TableChange(h, step, r);
    assert RoomOk(h, r);
    if step.Insert? && h.sessions[step.s].room == r && Next(h, step).rooms[r].members != h.rooms[r].members {
      MetInsert(h, step.s, step.order, p, q);
    } else {
      MetStep(h, step, r, p, q);
    }
  }

  lemma AcquaintedStep(h: Hub, step: Step, r: nat)
    requires Discovery(h) && Enabled(h, step) && Tables(Next(h, step)) && r < |Next(h, step).rooms|
    ensures RoomOk(Next(h, step), r) && Acquainted(Next(h, step), r)
  {
    var h' := Next(h, step);
    assert RoomOk(h', r);
    if r < |h.rooms| {
      forall p, q | p in h'.rooms[r].members && q in h'.rooms[r].members && p != q
        ensures Met(h', h'.rooms[r].members[p], h'.rooms[r].members[q])
      {
        MetAfter(h, step, r, p, q);
      }
    } else {
      NewRoomsAreEmpty(h, step, r);
    }
  }

  lemma DiscoveryStep(h: Hub, step: Step)
    requires Discovery(h) && Enabled(h, step)
    ensures Discovery(Next(h, step))
  {
    TablesStep(h, step);
    forall s | 0 <= s < |Next(h, step).sessions|
      ensures Greeted(Next(h, step).sessions[s])
      ensures !Entered(Next(h, step).sessions[s].pc) ==> Next(h, step).sessions[s].existing == []
    {
      GreetedStep(h, step, s);
    }
    forall r | 0 <= r < |Next(h, step).rooms|
      ensures RoomOk(Next(h, step), r) && Acquainted(Next(h, step), r)
    {
      AcquaintedStep(h, step, r);
    }
  }

  lemma {:induction false} DiscoveryAlways(run: seq<Hub>, steps: seq<Step>, i: nat)
    requires Run(run, steps) && i <= |steps|
    ensures Discovery(run[i])
  {
    if i > 0 {
      DiscoveryAlways(run, steps, i - 1);
      assert Linked(run, steps, i - 1);
      DiscoveryStep(run[i - 1], steps[i - 1]);
    }
  }

  /** Any two sessions with different peer IDs that are mapped in the same room object and past their
      announcement have each had the other's PEER_JOIN written, whatever the order of their steps. */
  lemma MutualDiscovery(run: seq<Hub>, steps: seq<Step>, i: nat, a: nat, b: nat)
    requires Run(run, steps) && i <= |steps|
    requires a < |run[i].sessions| && b < |run[i].sessions|
    requires run[i].sessions[a].room == run[i].sessions[b].room < |run[i].rooms|
    requires run[i].sessions[a].reg.peerId != run[i].sessions[b].reg.peerId
    requires Mapped(run[i], a) && Mapped(run[i], b)
    requires PastAnnounce(run[i].sessions[a].pc) && PastAnnounce(run[i].sessions[b].pc)
    ensures var x, y := run[i].sessions[a], run[i].sessions[b];
            && Join(Info(y.reg.peerId, y.reg.role, y.reg.direction)) in x.out
            && Join(Info(x.reg.peerId, x.reg.role, x.reg.direction)) in y.out
  {
    DiscoveryAlways(run, steps, i);
    var h := run[i];
    assert Acquainted(h, h.sessions[a].room);
    assert Greeted(h.sessions[a]) && Greeted(h.sessions[b]);
    var p, q := h.sessions[a].reg.peerId, h.sessions[b].reg.peerId;
    assert h.rooms[h.sessions[a].room].members[p] == a && h.rooms[h.sessions[a].room].members[q] == b;
  }
}
