/** Things the relay does not guarantee, each with the run that shows it: because critical
    sections interleave. `RelayRooms` and `RelayDrift` say exactly when they happen. */
module RelayHazards {
  import opened RelayHub
  import RelayView
  import RelayAtomic

  ghost predicate Reachable(h: Hub) {
    exists run, steps :: Run(run, steps) && run[|steps|] == h
  }

  /** One more step, with the state it leads to spelled out. */
  lemma Reach(h: Hub, step: Step, h': Hub)
    requires Reachable(h) && Enabled(h, step)
    requires var n := Next(h, step);
             n.byKey == h'.byKey && n.rooms == h'.rooms && n.sessions == h'.sessions && n.log == h'.log
    ensures Reachable(h')
  {
    var run, steps :| Run(run, steps) && run[|steps|] == h;
    var run', steps' := Extend(run, steps, step);
  }

  lemma ReachEmpty()
    ensures Reachable(EMPTY_HUB)
  {
    var run, steps: seq<Step> := [EMPTY_HUB], [];
    assert Run(run, steps) && run[|steps|] == EMPTY_HUB;
  }

  // ---------------------------------------------------------------- a group split over two rooms

  function S(reg: Register, pc: Pc, room: nat, out: seq<Msg>): Session {
    Session(reg, pc, room, [], out, pc.Finished?)
  }

  function Three(byKey: map<string, nat>, rooms: seq<Room>, a: Session, b: Session, c: Session): Hub {
    Hub(byKey, rooms, [a, b, c], [])
  }

  predicate Group(ra: Register, rb: Register, rc: Register) {
    Registered(ra) && Registered(rb) && Registered(rc) && KeyOf(ra) == KeyOf(rb) == KeyOf(rc) && rb.peerId != rc.peerId
  }

  lemma SplitConnects(ra: Register, rb: Register, rc: Register)
    requires Group(ra, rb, rc)
    ensures Reachable(Three(map[], [], S(ra, Looking, 0, []), S(rb, Looking, 0, []), S(rc, Looking, 0, [])))
  {
    ReachEmpty();
    var a, b, c := S(ra, Looking, 0, []), S(rb, Looking, 0, []), S(rc, Looking, 0, []);
    Reach(EMPTY_HUB, Connect(ra), Hub(map[], [], [a], []));
    Reach(Hub(map[], [], [a], []), Connect(rb), Hub(map[], [], [a, b], []));
    Reach(Hub(map[], [], [a, b], []), Connect(rc), Three(map[], [], a, b, c));
  }

  /** Three connections; the first two have looked up the same new room. */
  lemma SplitPrelude(ra: Register, rb: Register, rc: Register)
    requires Group(ra, rb, rc)
    ensures Reachable(Three(map[KeyOf(ra) := 0], [Room(KeyOf(ra), map[])],
                            S(ra, Inserting, 0, []), S(rb, Inserting, 0, []), S(rc, Looking, 0, [])))
  {
    SplitConnects(ra, rb, rc);
    var a, b, c := S(ra, Looking, 0, []), S(rb, Looking, 0, []), S(rc, Looking, 0, []);
    var k := KeyOf(ra);
    Reach(Three(map[], [], a, b, c), Lookup(0), Three(map[k := 0], [Room(k, map[])], a.(pc := Inserting), b, c));
    Reach(Three(map[k := 0], [Room(k, map[])], a.(pc := Inserting), b, c), Lookup(1),
          Three(map[k := 0], [Room(k, map[])], a.(pc := Inserting), b.(pc := Inserting), c));
  }

  lemma SplitInserts(ra: Register, b: Session, c: Session)
    requires Reachable(Three(map[KeyOf(ra) := 0], [Room(KeyOf(ra), map[])], S(ra, Inserting, 0, []), b, c))
    ensures Reachable(Three(map[KeyOf(ra) := 0], [Room(KeyOf(ra), map[ra.peerId := 0])], S(ra, Confirming, 0, []), b, c))
  {
    var k := KeyOf(ra);
    assert Snapshot([S(ra, Inserting, 0, []), b, c], map[], []) == [];
    Reach(Three(map[k := 0], [Room(k, map[])], S(ra, Inserting, 0, []), b, c), Insert(0, []),
          Three(map[k := 0], [Room(k, map[ra.peerId := 0])], S(ra, Confirming, 0, []), b, c));
  }

  /** The first one gives up at its RegisterOk. */
  lemma SplitGivesUp(ra: Register, rb: Register, rc: Register)
    requires Group(ra, rb, rc)
    ensures Reachable(Three(map[KeyOf(ra) := 0], [Room(KeyOf(ra), map[ra.peerId := 0])],
                            S(ra, Cleaning(false), 0, [RegisterOk]), S(rb, Inserting, 0, []), S(rc, Looking, 0, [])))
  {
    SplitPrelude(ra, rb, rc);
    var b, c := S(rb, Inserting, 0, []), S(rc, Looking, 0, []);
    SplitInserts(ra, b, c);
    var m, one := map[KeyOf(ra) := 0], [Room(KeyOf(ra), map[ra.peerId := 0])];
    assert Say(S(ra, Confirming, 0, []), RegisterOk).out == [RegisterOk];
    Reach(Three(m, one, S(ra, Confirming, 0, []), b, c), Confirm(0, false),
          Three(m, one, S(ra, Cleaning(false), 0, [RegisterOk]), b, c));
  }

  /** A room's only session takes itself out and the emptied room off the map. */
  lemma SplitUnmap(k: string, a: Session, b: Session, c: Session)
    requires a.pc == Cleaning(false) && a.room == 0 && k == KeyOf(a.reg)
    requires Reachable(Three(map[k := 0], [Room(k, map[a.reg.peerId := 0])], a, b, c))
    ensures Reachable(Three(map[], [Room(k, map[])], a.(pc := Finished, closed := true), b, c))
  {
    SplitRemoves(k, a, b, c);
    var m, empty := map[k := 0], [Room(k, map[])];
    assert m - {k} == map[];
    Reach(Three(m, empty, a.(pc := Unmapping(false, true)), b, c), Unmap(0),
          Three(map[], empty, a.(pc := Finished, closed := true), b, c));
  }

  lemma SplitFinds(k: string, members: map<string, nat>, a: Session, b: Session, c: Session)
    requires a.pc == Cleaning(false) && k == KeyOf(a.reg)
    requires Reachable(Three(map[k := 0], [Room(k, members)], a, b, c))
    ensures Reachable(Three(map[k := 0], [Room(k, members)], a.(pc := Removing(false, 0)), b, c))
  {
    Reach(Three(map[k := 0], [Room(k, members)], a, b, c), FindRoom(0),
          Three(map[k := 0], [Room(k, members)], a.(pc := Removing(false, 0)), b, c));
  }

  lemma SplitRemoves(k: string, a: Session, b: Session, c: Session)
    requires a.pc == Cleaning(false) && a.room == 0 && k == KeyOf(a.reg)
    requires Reachable(Three(map[k := 0], [Room(k, map[a.reg.peerId := 0])], a, b, c))
    ensures Reachable(Three(map[k := 0], [Room(k, map[])], a.(pc := Unmapping(false, true)), b, c))
  {
    var m, one := map[k := 0], map[a.reg.peerId := 0];
    SplitFinds(k, one, a, b, c);
    assert Without(one, a.reg.peerId) == map[];
    Reach(Three(m, [Room(k, one)], a.(pc := Removing(false, 0)), b, c), RemoveIf(0),
          Three(m, [Room(k, map[])], a.(pc := Unmapping(false, true)), b, c));
  }

  function Settled(h: Hub, s: nat): Hub
    requires s < |h.sessions| && h.sessions[s].room < |h.rooms|
  {
    var x := h.sessions[s];
    h.(rooms := h.rooms[x.room := h.rooms[x.room].(members := map[x.reg.peerId := s])],
       sessions := h.sessions[s := x.(pc := Reading, existing := [], out := x.out + [RegisterOk])])
  }

  /** A registration that nobody interrupts, into an empty room. */
  lemma Settles(h: Hub, s: nat)
    requires Reachable(h) && s < |h.sessions| && h.sessions[s].pc.Inserting? && !h.sessions[s].closed
    requires h.sessions[s].room < |h.rooms| && h.rooms[h.sessions[s].room].members == map[]
    ensures Reachable(Settled(h, s))
  {
    var x := h.sessions[s];
    var h1 := Settled(h, s).(sessions := h.sessions[s := x.(pc := Confirming, existing := [])]);
    assert Snapshot(h.sessions, map[], []) == [];
    Reach(h, Insert(s, []), h1);
    var h2 := h1.(sessions := h.sessions[s := x.(pc := Announcing, existing := [], out := x.out + [RegisterOk])]);
    Reach(h1, Confirm(s, true), h2);
    assert Broadcast(h2.sessions, map[x.reg.peerId := s], {x.reg.peerId}, Join(InfoOf(x.reg))) == h2.sessions;
    Reach(h2, Announce(s), Settled(h, s));
  }

  lemma SplitSettles(ra: Register, rb: Register, rc: Register) returns (h: Hub)
    requires Group(ra, rb, rc)
    requires Reachable(Three(map[], [Room(KeyOf(ra), map[])], S(ra, Finished, 0, [RegisterOk]),
                             S(rb, Inserting, 0, []), S(rc, Looking, 0, [])))
    ensures Reachable(h)
    ensures h == Three(map[KeyOf(ra) := 1], [Room(KeyOf(ra), map[rb.peerId := 1]), Room(KeyOf(ra), map[rc.peerId := 2])],
                       S(ra, Finished, 0, [RegisterOk]), S(rb, Reading, 0, [RegisterOk]), S(rc, Reading, 1, [RegisterOk]))
  {
    var k := KeyOf(ra);
    var a, b, c := S(ra, Finished, 0, [RegisterOk]), S(rb, Inserting, 0, []), S(rc, Inserting, 1, []);
    var h11 := Three(map[k := 1], [Room(k, map[]), Room(k, map[])], a, b, c);
    Reach(Three(map[], [Room(k, map[])], a, b, S(rc, Looking, 0, [])), Lookup(2), h11);
    Settles(h11, 1);
    Settles(Settled(h11, 1), 2);
    h := Settled(Settled(h11, 1), 2);
    assert b.out + [RegisterOk] == c.out + [RegisterOk] == [RegisterOk];
    assert h.sessions == [a, S(rb, Reading, 0, [RegisterOk]), S(rc, Reading, 1, [RegisterOk])];
  }

  /** An emptied room is unmapped after a newcomer has already looked it up: two sessions of one sync group
      end up reading in different room objects, and neither has been told of the other. */
  lemma SplitGroup(ra: Register, rb: Register, rc: Register) returns (h: Hub)
    requires Group(ra, rb, rc)
    ensures Reachable(h)
    ensures |h.sessions| == 3 && |h.rooms| == 2
    ensures var b, c := h.sessions[1], h.sessions[2];
            && b.reg == rb && c.reg == rc
            && b.pc.Reading? && c.pc.Reading? && b.room != c.room
            && b.room < 2 && Mapped(h, 1) && c.room < 2 && Mapped(h, 2)
            && b.out == c.out == [RegisterOk]
  {
    SplitGivesUp(ra, rb, rc);
    var k := KeyOf(ra);
    SplitUnmap(k, S(ra, Cleaning(false), 0, [RegisterOk]), S(rb, Inserting, 0, []), S(rc, Looking, 0, []));
    h := SplitSettles(ra, rb, rc);
  }

  // ---------------------------------------------------------------- a leave that comes too late

  function Greeter(x: Session, room: nat, info: Info): Session {
    x.(pc := Reading, room := room, existing := [info], out := [RegisterOk, Join(info)])
  }

  /** One room, a watcher in it as session 0, and `s` on its way in or in. */
  function Pair(k: string, members: map<string, nat>, sessions: seq<Session>): Hub {
    Hub(map[k := 0], [Room(k, members)], sessions, [])
  }

  function Entering(reg: Register, w: Register, pc: Pc, out: seq<Msg>): Session {
    S(reg, pc, 0, out).(existing := [InfoOf(w)])
  }

  lemma JoinsLookUp(k: string, members: map<string, nat>, all: seq<Session>, reg: Register)
    requires Registered(reg) && k == KeyOf(reg) && Reachable(Pair(k, members, all))
    ensures Reachable(Pair(k, members, all + [S(reg, Inserting, 0, [])]))
  {
    var x0 := S(reg, Looking, 0, []);
    Reach(Pair(k, members, all), Connect(reg), Pair(k, members, all + [x0]));
    Reach(Pair(k, members, all + [x0]), Lookup(|all|), Pair(k, members, all + [S(reg, Inserting, 0, [])]));
  }

  lemma JoinsInsert(k: string, w: Session, others: seq<Session>, reg: Register)
    requires Registered(reg) && k == KeyOf(reg) && w.reg.peerId != reg.peerId
    requires Reachable(Pair(k, map[w.reg.peerId := 0], [w] + others))
    ensures Reachable(Pair(k, map[w.reg.peerId := 0, reg.peerId := 1 + |others|],
                           [w] + others + [Entering(reg, w.reg, Confirming, [])]))
  {
    var n := 1 + |others|;
    var id := w.reg.peerId;
    var alone := map[id := 0];
    var all := [w] + others;
    JoinsLookUp(k, alone, all, reg);
    var x1 := S(reg, Inserting, 0, []);
    assert Enumerates([id], alone.Keys - {reg.peerId});
    assert Snapshot(all + [x1], alone, [id]) == [InfoOf(w.reg)];
    Reach(Pair(k, alone, all + [x1]), Insert(n, [id]),
          Pair(k, map[id := 0, reg.peerId := n], all + [Entering(reg, w.reg, Confirming, [])]));
  }

  /** A registration that nobody interrupts, into a room with one watcher. */
  lemma Joins(k: string, w: Session, others: seq<Session>, reg: Register)
    requires Registered(reg) && k == KeyOf(reg) && w.reg.peerId != reg.peerId
    requires forall i :: 0 <= i < |others| ==> others[i].reg.peerId == reg.peerId
    requires Reachable(Pair(k, map[w.reg.peerId := 0], [w] + others))
    ensures Reachable(Pair(k, map[w.reg.peerId := 0, reg.peerId := 1 + |others|],
                           [Say(w, Join(InfoOf(reg)))] + others + [Greeter(S(reg, Looking, 0, []), 0, InfoOf(w.reg))]))
  {
    JoinsInsert(k, w, others, reg);
    var n := 1 + |others|;
    var both := map[w.reg.peerId := 0, reg.peerId := n];
    var hello := [RegisterOk, Join(InfoOf(w.reg))];
    var x2, x3 := Entering(reg, w.reg, Confirming, []), Entering(reg, w.reg, Greeting(0), [RegisterOk]);
    var x4 := Entering(reg, w.reg, Announcing, hello);
    var all := [w] + others;
    assert Say(x2, RegisterOk).out == [RegisterOk] && Say(x3, Join(InfoOf(w.reg))).out == hello;
    Reach(Pair(k, both, all + [x2]), Confirm(n, true), Pair(k, both, all + [x3]));
    Reach(Pair(k, both, all + [x3]), Greet(n, true), Pair(k, both, all + [x4]));
    JoinsAnnounce(k, w, others, x4);
  }

  lemma JoinsAnnounce(k: string, w: Session, others: seq<Session>, x: Session)
    requires x.pc.Announcing? && x.room == 0 && w.reg.peerId != x.reg.peerId
    requires forall i :: 0 <= i < |others| ==> others[i].reg.peerId == x.reg.peerId
    requires Reachable(Pair(k, map[w.reg.peerId := 0, x.reg.peerId := 1 + |others|], [w] + others + [x]))
    ensures Reachable(Pair(k, map[w.reg.peerId := 0, x.reg.peerId := 1 + |others|],
                           [Say(w, Join(InfoOf(x.reg)))] + others + [x.(pc := Reading)]))
  {
    var n := 1 + |others|;
    var both := map[w.reg.peerId := 0, x.reg.peerId := n];
    var all := [w] + others + [x];
    assert IsMember(both, 0) by { assert both[w.reg.peerId] == 0; }
    var told := Broadcast(all, both, {x.reg.peerId}, Join(InfoOf(x.reg)));
    assert told == [Say(w, Join(InfoOf(x.reg)))] + others + [x];
    Reach(Pair(k, both, all), Announce(n), Pair(k, both, [Say(w, Join(InfoOf(x.reg)))] + others + [x.(pc := Reading)]));
  }

  lemma WatcherLooksUp(rw: Register)
    requires Registered(rw)
    ensures Reachable(Pair(KeyOf(rw), map[], [S(rw, Inserting, 0, [])]))
  {
    ReachEmpty();
    var x0 := S(rw, Looking, 0, []);
    Reach(EMPTY_HUB, Connect(rw), Hub(map[], [], [x0], []));
    Reach(Hub(map[], [], [x0], []), Lookup(0), Pair(KeyOf(rw), map[], [S(rw, Inserting, 0, [])]));
  }

  /** The watcher alone in its room. */
  lemma WatcherAlone(rw: Register)
    requires Registered(rw)
    ensures Reachable(Pair(KeyOf(rw), map[rw.peerId := 0], [S(rw, Reading, 0, [RegisterOk])]))
  {
    WatcherLooksUp(rw);
    var h := Pair(KeyOf(rw), map[], [S(rw, Inserting, 0, [])]);
    Settles(h, 0);
    assert h.sessions[0].out + [RegisterOk] == [RegisterOk];
    assert Settled(h, 0).sessions == [S(rw, Reading, 0, [RegisterOk])];
    assert Settled(h, 0).rooms == [Room(KeyOf(rw), map[rw.peerId := 0])];
  }

  /** The peer's first session fails and takes itself out of the room, its leave still unsent. */
  lemma Departs(k: string, w: Session, p: Session)
    requires p.pc.Reading? && p.room == 0 && !p.closed && k == KeyOf(p.reg) && w.reg.peerId != p.reg.peerId
    requires Reachable(Pair(k, map[w.reg.peerId := 0, p.reg.peerId := 1], [w, p]))
    ensures Reachable(Pair(k, map[w.reg.peerId := 0], [w, p.(pc := Leaving)]))
  {
    var both := map[w.reg.peerId := 0, p.reg.peerId := 1];
    Reach(Pair(k, both, [w, p]), ReadFails(1), Pair(k, both, [w, p.(pc := Cleaning(true))]));
    Reach(Pair(k, both, [w, p.(pc := Cleaning(true))]), FindRoom(1), Pair(k, both, [w, p.(pc := Removing(true, 0))]));
    assert Without(both, p.reg.peerId) == map[w.reg.peerId := 0];
    assert map[w.reg.peerId := 0] != map[] by { assert w.reg.peerId in map[w.reg.peerId := 0]; }
    Reach(Pair(k, both, [w, p.(pc := Removing(true, 0))]), RemoveIf(1), Pair(k, map[w.reg.peerId := 0], [w, p.(pc := Leaving)]));
  }

  /** A peer that reconnects between its old session's removal and that session's broadcast is announced and
      then reported gone: the watcher ends up not knowing a peer that is mapped and reading. */
  lemma StaleLeave(rw: Register, rp: Register) returns (h: Hub)
    requires Registered(rw) && Registered(rp) && KeyOf(rw) == KeyOf(rp) && rw.peerId != rp.peerId
    ensures Reachable(h) && |h.sessions| == 3 && |h.rooms| == 1
    ensures && h.rooms[0].members == map[rw.peerId := 0, rp.peerId := 2]
            && h.sessions[0].pc.Reading? && h.sessions[2].pc.Reading? && h.sessions[2].reg == rp
            && RelayView.Fold(rw.peerId, {}, h.sessions[0].out) == {}
  {
    var w := Say(S(rw, Reading, 0, [RegisterOk]), Join(InfoOf(rp)));
    var p := Greeter(S(rp, Looking, 0, []), 0, InfoOf(rw));
    StaleSetup(rw, rp, w, p);
    h := ComesBack(KeyOf(rw), w, p);
    assert h.sessions[0].out == [RegisterOk, Join(InfoOf(rp)), Join(InfoOf(rp)), Leave(rp.peerId)];
    JoinJoinLeave(rw.peerId, InfoOf(rp));
  }

  lemma StaleSetup(rw: Register, rp: Register, w: Session, p: Session)
    requires Registered(rw) && Registered(rp) && KeyOf(rw) == KeyOf(rp) && rw.peerId != rp.peerId
    requires w == Say(S(rw, Reading, 0, [RegisterOk]), Join(InfoOf(rp)))
    requires p == Greeter(S(rp, Looking, 0, []), 0, InfoOf(rw))
    ensures Reachable(Pair(KeyOf(rw), map[rw.peerId := 0], [w, p.(pc := Leaving)]))
  {
    WatcherAlone(rw);
    var w0 := S(rw, Reading, 0, [RegisterOk]);
    assert [w0] + [] == [w0] && [w] + [] + [p] == [w, p];
    Joins(KeyOf(rw), w0, [], rp);
    Departs(KeyOf(rw), w, p);
  }

  /** The second registration goes through before the first session's leave is broadcast. */
  lemma ComesBack(k: string, w: Session, p: Session) returns (h: Hub)
    requires Registered(p.reg) && k == KeyOf(p.reg) && w.reg.peerId != p.reg.peerId && p.pc.Reading? && p.room == 0
    requires p == Greeter(S(p.reg, Looking, 0, []), 0, InfoOf(w.reg))
    requires Reachable(Pair(k, map[w.reg.peerId := 0], [w, p.(pc := Leaving)]))
    ensures Reachable(h) && |h.sessions| == 3
    ensures h.rooms == [Room(k, map[w.reg.peerId := 0, p.reg.peerId := 2])]
    ensures h.sessions[0] == Say(Say(w, Join(InfoOf(p.reg))), Leave(p.reg.peerId))
    ensures h.sessions[2].pc.Reading? && h.sessions[2].reg == p.reg
  {
    var gone := p.(pc := Leaving);
    assert [w] + [gone] == [w, gone];
    Joins(k, w, [gone], p.reg);
    var w1 := Say(w, Join(InfoOf(p.reg)));
    assert [w1] + [gone] + [p] == [w1, gone, p];
    h := LeavesLate(k, w1, gone, p);
  }

  lemma LeavesLate(k: string, w: Session, gone: Session, p: Session) returns (h: Hub)
    requires gone.pc.Leaving? && gone.room == 0 && gone.reg == p.reg && w.reg.peerId != p.reg.peerId
    requires Reachable(Pair(k, map[w.reg.peerId := 0, p.reg.peerId := 2], [w, gone, p]))
    ensures Reachable(h) && |h.sessions| == 3
    ensures h.rooms == [Room(k, map[w.reg.peerId := 0, p.reg.peerId := 2])]
    ensures h.sessions[0] == Say(w, Leave(p.reg.peerId))
    ensures h.sessions[2].pc == p.pc && h.sessions[2].reg == p.reg
  {
    var both := map[w.reg.peerId := 0, p.reg.peerId := 2];
    var h0 := Pair(k, both, [w, gone, p]);
    h := Next(h0, Farewell(1));
    Reach(h0, Farewell(1), h);
    assert IsMember(both, 0) by { assert both[w.reg.peerId] == 0; }
  }

  lemma JoinJoinLeave(me: string, info: Info)
    requires info.peerId != me
    ensures RelayView.Fold(me, {}, [RegisterOk, Join(info), Join(info), Leave(info.peerId)]) == {}
  {
    var join, leave := Join(info), Leave(info.peerId);
    assert RelayView.Fold(me, {}, [RegisterOk]) == RelayView.Handle(me, RelayView.Fold(me, {}, []), RegisterOk) == {};
    RelayView.FoldSnoc(me, {}, [RegisterOk], join);
    assert [RegisterOk] + [join] == [RegisterOk, join];
    RelayView.FoldSnoc(me, {}, [RegisterOk, join], join);
    assert [RegisterOk, join] + [join] == [RegisterOk, join, join];
    RelayView.FoldSnoc(me, {}, [RegisterOk, join, join], leave);
    assert [RegisterOk, join, join] + [leave] == [RegisterOk, join, join, leave];
  }

  // ---------------------------------------------------------------- a snapshot that is out of date

  lemma SnapshotTaken(rp: Register, rn: Register)
    requires Registered(rp) && Registered(rn) && KeyOf(rp) == KeyOf(rn) && rp.peerId != rn.peerId
    ensures Reachable(Pair(KeyOf(rp), map[rp.peerId := 0, rn.peerId := 1],
                           [S(rp, Reading, 0, [RegisterOk]), Entering(rn, rp, Confirming, [])]))
  {
    WatcherAlone(rp);
    var w := S(rp, Reading, 0, [RegisterOk]);
    assert [w] + [] == [w] && [w] + [] + [Entering(rn, rp, Confirming, [])] == [w, Entering(rn, rp, Confirming, [])];
    JoinsInsert(KeyOf(rp), w, [], rn);
  }

  /** The peer of the snapshot takes itself out. */
  lemma PeerRemoves(k: string, p: Session, x: Session)
    requires p.pc.Reading? && p.room == 0 && !p.closed && k == KeyOf(p.reg) && p.reg.peerId != x.reg.peerId
    requires Reachable(Pair(k, map[p.reg.peerId := 0, x.reg.peerId := 1], [p, x]))
    ensures Reachable(Pair(k, map[x.reg.peerId := 1], [p.(pc := Leaving), x]))
  {
    var both := map[p.reg.peerId := 0, x.reg.peerId := 1];
    Reach(Pair(k, both, [p, x]), ReadFails(0), Pair(k, both, [p.(pc := Cleaning(true)), x]));
    Reach(Pair(k, both, [p.(pc := Cleaning(true)), x]), FindRoom(0), Pair(k, both, [p.(pc := Removing(true, 0)), x]));
    assert Without(both, p.reg.peerId) == map[x.reg.peerId := 1];
    assert map[x.reg.peerId := 1] != map[] by { assert x.reg.peerId in map[x.reg.peerId := 1]; }
    Reach(Pair(k, both, [p.(pc := Removing(true, 0)), x]), RemoveIf(0),
          Pair(k, map[x.reg.peerId := 1], [p.(pc := Leaving), x]));
  }

  lemma PeerSaysFarewell(k: string, p: Session, x: Session)
    requires p.pc.Leaving? && p.room == 0 && p.reg.peerId != x.reg.peerId
    requires Reachable(Pair(k, map[x.reg.peerId := 1], [p, x]))
    ensures Reachable(Pair(k, map[x.reg.peerId := 1], [RelayAtomic.Done(p), Say(x, Leave(p.reg.peerId))]))
  {
    var alone := map[x.reg.peerId := 1];
    assert IsMember(alone, 1) by { assert alone[x.reg.peerId] == 1; }
    Reach(Pair(k, alone, [p, x]), Farewell(0), Pair(k, alone, [RelayAtomic.Done(p), Say(x, Leave(p.reg.peerId))]));
  }

  lemma ConfirmsAlone(k: string, p: Session, x: Session)
    requires x.pc.Confirming? && x.room == 0 && !x.closed && |x.existing| == 1
    requires Reachable(Pair(k, map[x.reg.peerId := 1], [p, x]))
    ensures Reachable(Pair(k, map[x.reg.peerId := 1], [p, x.(pc := Greeting(0), out := x.out + [RegisterOk])]))
  {
    var alone := map[x.reg.peerId := 1];
    Reach(Pair(k, alone, [p, x]), Confirm(1, true), Pair(k, alone, [p, x.(pc := Greeting(0), out := x.out + [RegisterOk])]));
  }

  lemma AnnouncesAlone(k: string, p: Session, x: Session)
    requires x.pc.Announcing? && x.room == 0 && !x.closed
    requires Reachable(Pair(k, map[x.reg.peerId := 1], [p, x]))
    ensures Reachable(Pair(k, map[x.reg.peerId := 1], [p, x.(pc := Reading)]))
  {
    var alone := map[x.reg.peerId := 1];
    assert Broadcast([p, x], alone, {x.reg.peerId}, Join(InfoOf(x.reg))) == [p, x];
    Reach(Pair(k, alone, [p, x]), Announce(1), Pair(k, alone, [p, x.(pc := Reading)]));
  }

  /** The newcomer is told of it all the same. */
  lemma GreetsTheGone(k: string, p: Session, x: Session, info: Info)
    requires x.pc.Confirming? && x.room == 0 && !x.closed && x.existing == [info]
    requires Reachable(Pair(k, map[x.reg.peerId := 1], [p, x]))
    ensures Reachable(Pair(k, map[x.reg.peerId := 1],
                           [p, x.(pc := Reading, out := x.out + [RegisterOk] + [Join(info)])]))
  {
    ConfirmsAlone(k, p, x);
    var alone := map[x.reg.peerId := 1];
    var x1 := x.(pc := Greeting(0), out := x.out + [RegisterOk]);
    var x2 := x1.(pc := Announcing, out := x1.out + [Join(info)]);
    Reach(Pair(k, alone, [p, x1]), Greet(1, true), Pair(k, alone, [p, x2]));
    AnnouncesAlone(k, p, x2);
  }

  /** A peer that leaves between the snapshot and the greetings is reported gone first and then introduced: the
      newcomer ends up with a connection to a peer that is not there. */
  lemma StaleSnapshot(rp: Register, rn: Register) returns (h: Hub)
    requires Registered(rp) && Registered(rn) && KeyOf(rp) == KeyOf(rn) && rp.peerId != rn.peerId
    ensures Reachable(h) && |h.sessions| == 2 && |h.rooms| == 1
    ensures && h.rooms[0].members == map[rn.peerId := 1]
            && h.sessions[0].pc.Finished? && h.sessions[1].pc.Reading? && h.sessions[1].reg == rn
            && RelayView.Fold(rn.peerId, {}, h.sessions[1].out) == {rp.peerId}
  {
    var k, p := KeyOf(rp), S(rp, Reading, 0, [RegisterOk]);
    var x := Entering(rn, rp, Confirming, []);
    SnapshotTaken(rp, rn);
    PeerRemoves(k, p, x);
    PeerSaysFarewell(k, p.(pc := Leaving), x);
    var y := Say(x, Leave(rp.peerId));
    GreetsTheGone(k, RelayAtomic.Done(p.(pc := Leaving)), y, InfoOf(rp));
    var out := [] + [Leave(rp.peerId)] + [RegisterOk] + [Join(InfoOf(rp))];
    h := Pair(k, map[rn.peerId := 1], [RelayAtomic.Done(p.(pc := Leaving)), y.(pc := Reading, out := out)]);
    LeaveThenJoin(rn.peerId, InfoOf(rp));
  }

  lemma LeaveThenJoin(me: string, info: Info)
    requires info.peerId != me
    ensures RelayView.Fold(me, {}, [] + [Leave(info.peerId)] + [RegisterOk] + [Join(info)]) == {info.peerId}
  {
    var none: seq<Msg> := [];
    assert RelayView.Fold(me, {}, none) == {};
    RelayView.FoldSnoc(me, {}, none, Leave(info.peerId));
    RelayView.FoldSnoc(me, {}, none + [Leave(info.peerId)], RegisterOk);
    RelayView.FoldSnoc(me, {}, none + [Leave(info.peerId)] + [RegisterOk], Join(info));
  }
}
