/** A peer that a client goes on believing in: a registration that displaces a session and then fails is announced by
    nobody. `RelayView` says exactly when this happens. */
module RelayPhantom {
  import opened RelayHub
  import opened RelayView
  import opened RelayAtomic
  import opened RelayRefinement
  import Hazards = RelayHazards

  lemma ReachMany(h: Hub, steps: seq<Step>, h': Hub)
    requires Hazards.Reachable(h) && Goes(h, steps, h')
    ensures Hazards.Reachable(h')
    decreases |steps|
  {
    if steps != [] {
      Hazards.Reach(h, steps[0], Next(h, steps[0]));
      ReachMany(Next(h, steps[0]), steps[1..], h');
    }
  }

  lemma Happens(h: Hub, e: Event) returns (h': Hub)
    requires Hazards.Reachable(h) && AtRest(h) && !e.Send? && Possible(Abs(h), e)
    ensures Hazards.Reachable(h') && AtRest(h')
    ensures Abs(h') == After(Abs(h), e)
  {
    h' := SectionsAreTheEvent(h, e, true);
    ReachMany(h, Sections(h, e, true), h');
  }

  function OneRoom(k: string, room: map<string, nat>, clients: seq<Client>): Relay {
    Relay(map[k := room], clients)
  }

  lemma FirstArrives(rw: Register)
    requires Registered(rw)
    ensures Possible(EMPTY_RELAY, Arrive(rw, []))
    ensures After(EMPTY_RELAY, Arrive(rw, [])) ==
            OneRoom(KeyOf(rw), map[rw.peerId := 0], [Client(rw, Open, [RegisterOk])])
  {
    var none: seq<string> := [];
    assert CanEnter(EMPTY_RELAY, rw, none);
    var greetings := Greetings(EMPTY_RELAY, KeyOf(rw), none);
    assert [RegisterOk] + greetings == [RegisterOk];
    var all := [] + [Client(rw, Open, [RegisterOk])];
    assert PostAll(all, map[rw.peerId := 0], {rw.peerId}, Join(InfoOf(rw))) == all;
  }

  lemma SecondArrives(rw: Register, rp: Register)
    requires Registered(rw) && Registered(rp) && KeyOf(rw) == KeyOf(rp) && rw.peerId != rp.peerId
    ensures var r := OneRoom(KeyOf(rw), map[rw.peerId := 0], [Client(rw, Open, [RegisterOk])]);
            && Possible(r, Arrive(rp, [rw.peerId]))
            && After(r, Arrive(rp, [rw.peerId])) ==
               OneRoom(KeyOf(rw), map[rw.peerId := 0, rp.peerId := 1],
                   [Client(rw, Open, [RegisterOk, Join(InfoOf(rp))]),
                    Client(rp, Open, [RegisterOk, Join(InfoOf(rw))])])
  {
    var r := OneRoom(KeyOf(rw), map[rw.peerId := 0], [Client(rw, Open, [RegisterOk])]);
    assert Enumerates([rw.peerId], map[rw.peerId := 0].Keys - {rp.peerId});
    assert CanEnter(r, rp, [rw.peerId]);
    assert Greetings(r, KeyOf(rp), [rw.peerId]) == [Join(InfoOf(rw))];
    var both := map[rw.peerId := 0, rp.peerId := 1];
    assert Inserted(map[rw.peerId := 0], rp.peerId, 1) == both;
    assert IsMember(both, 0) by { assert both[rw.peerId] == 0; }
    var all := [Client(rw, Open, [RegisterOk])] + [Client(rp, Open, [RegisterOk] + [Join(InfoOf(rw))])];
    var told := PostAll(all, both, {rp.peerId}, Join(InfoOf(rp)));
    assert told[0] == Client(rw, Open, [RegisterOk] + [Join(InfoOf(rp))]) && told[1] == all[1];
    assert forall m: Msg :: [RegisterOk] + [m] == [RegisterOk, m];
    assert told == [Client(rw, Open, [RegisterOk, Join(InfoOf(rp))]), Client(rp, Open, [RegisterOk, Join(InfoOf(rw))])];
  }

  lemma ThirdFails(rw: Register, rp: Register, w: Client, p: Client)
    requires Registered(rw) && Registered(rp) && KeyOf(rw) == KeyOf(rp) && rw.peerId != rp.peerId && p.reg == rp
    ensures var r := OneRoom(KeyOf(rw), map[rw.peerId := 0, rp.peerId := 1], [w, p]);
            && Possible(r, Fail(rp, [rw.peerId], 0))
            && After(r, Fail(rp, [rw.peerId], 0)) ==
               OneRoom(KeyOf(rw), map[rw.peerId := 0], [w, p.(status := Replaced), Client(rp, Exited, [RegisterOk])])
  {
    var both := map[rw.peerId := 0, rp.peerId := 1];
    var r := OneRoom(KeyOf(rw), both, [w, p]);
    assert Enumerates([rw.peerId], both.Keys - {rp.peerId});
    assert CanEnter(r, rp, [rw.peerId]);
    assert Without(both, rp.peerId) == map[rw.peerId := 0];
    assert map[rw.peerId := 0] != map[] by { assert rw.peerId in map[rw.peerId := 0]; }
    assert [RegisterOk] + Greetings(r, KeyOf(rp), [rw.peerId])[..0] == [RegisterOk];
  }

  lemma OldOneExits(rw: Register, rp: Register, w: Client, p: Client, q: Client)
    requires rw.peerId != rp.peerId && p.reg == rp && p.status.Replaced?
    ensures var r := OneRoom(KeyOf(rw), map[rw.peerId := 0], [w, p, q]);
            && Possible(r, Exit(1))
            && After(r, Exit(1)) ==
               OneRoom(KeyOf(rw), map[rw.peerId := 0], [w, p.(status := Exited), q])
  {
  }

  lemma TwoArrive(rw: Register, rp: Register) returns (h: Hub)
    requires Registered(rw) && Registered(rp) && KeyOf(rw) == KeyOf(rp) && rw.peerId != rp.peerId
    ensures Hazards.Reachable(h) && AtRest(h)
    ensures Abs(h) == OneRoom(KeyOf(rw), map[rw.peerId := 0, rp.peerId := 1],
                              [Client(rw, Open, [RegisterOk, Join(InfoOf(rp))]), Client(rp, Open, [RegisterOk, Join(InfoOf(rw))])])
  {
    Hazards.ReachEmpty();
    assert Abs(EMPTY_HUB) == EMPTY_RELAY;
    FirstArrives(rw);
    var h1 := Happens(EMPTY_HUB, Arrive(rw, []));
    SecondArrives(rw, rp);
    h := Happens(h1, Arrive(rp, [rw.peerId]));
  }

  lemma OneFails(h2: Hub, rw: Register, rp: Register, w: Client, p: Client) returns (h: Hub)
    requires Registered(rw) && Registered(rp) && KeyOf(rw) == KeyOf(rp) && rw.peerId != rp.peerId && p.reg == rp
    requires Hazards.Reachable(h2) && AtRest(h2)
    requires Abs(h2) == OneRoom(KeyOf(rw), map[rw.peerId := 0, rp.peerId := 1], [w, p])
    ensures Hazards.Reachable(h) && AtRest(h)
    ensures Abs(h) == OneRoom(KeyOf(rw), map[rw.peerId := 0], [w, p.(status := Exited), Client(rp, Exited, [RegisterOk])])
  {
    ThirdFails(rw, rp, w, p);
    var h3 := Happens(h2, Fail(rp, [rw.peerId], 0));
    OldOneExits(rw, rp, w, p.(status := Replaced), Client(rp, Exited, [RegisterOk]));
    h := Happens(h3, Exit(1));
  }

  /** Even when the handlers run one at a time: a peer comes back, its registration takes the place of the old session
      and then fails to write. Neither session announces a leave, and the watcher keeps believing in the peer. */
  lemma PhantomPeer(rw: Register, rp: Register) returns (h: Hub)
    requires Registered(rw) && Registered(rp) && KeyOf(rw) == KeyOf(rp) && rw.peerId != rp.peerId
    ensures Hazards.Reachable(h) && |h.sessions| == 3
    ensures && MembersOf(h, KeyOf(rw)) == map[rw.peerId := 0]
            && h.sessions[0].reg == rw && h.sessions[0].pc.Reading?
            && h.sessions[1].pc.Finished? && h.sessions[2].pc.Finished?
            && Fold(rw.peerId, {}, h.sessions[0].out) == {rp.peerId}
  {
    var h2 := TwoArrive(rw, rp);
    var w := Client(rw, Open, [RegisterOk, Join(InfoOf(rp))]);
    var p := Client(rp, Open, [RegisterOk, Join(InfoOf(rw))]);
    h := OneFails(h2, rw, rp, w, p);
    ReadAbs(h, KeyOf(rw), map[rw.peerId := 0], [w, p.(status := Exited), Client(rp, Exited, [RegisterOk])]);
    JoinOnly(rw.peerId, InfoOf(rp));
  }

  /** What the view of a hub says of the hub. */
  lemma ReadAbs(h: Hub, k: string, room: map<string, nat>, clients: seq<Client>)
    requires AtRest(h) && Abs(h) == OneRoom(k, room, clients)
    ensures |h.sessions| == |clients| && MembersOf(h, k) == room
    ensures forall i :: 0 <= i < |clients| ==>
              && h.sessions[i].reg == clients[i].reg && h.sessions[i].out == clients[i].out
              && (h.sessions[i].pc.Finished? <==> clients[i].status.Exited?)
              && (h.sessions[i].pc.Reading? <==> !clients[i].status.Exited?)
  {
    RoomOfAbs(h, k);
    forall i | 0 <= i < |clients|
      ensures clients[i] == ClientOf(h, i)
    {
      assert Abs(h).clients[i] == ClientOf(h, i);
    }
  }

  lemma JoinOnly(me: string, info: Info)
    requires info.peerId != me
    ensures Fold(me, {}, [RegisterOk, Join(info)]) == {info.peerId}
  {
    assert Fold(me, {}, [RegisterOk]) == Handle(me, Fold(me, {}, []), RegisterOk) == {};
    FoldSnoc(me, {}, [RegisterOk], Join(info));
    assert [RegisterOk] + [Join(info)] == [RegisterOk, Join(info)];
  }
}
