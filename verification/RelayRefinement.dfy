/** The relay at rest, seen as the relay with atomic handlers: every event of `RelayView` is what a handler of
    `RelayHub` does when none of its sections is interrupted. */
module RelayRefinement {
  import opened RelayHub
  import opened RelayView
  import opened RelayAtomic

  // ---------------------------------------------------------------- the view of a hub

  function StatusOf(h: Hub, i: nat): Status
    requires i < |h.sessions|
  {
    var x := h.sessions[i];
    if x.pc.Finished? then Exited else if Holds(MembersOf(h, KeyOf(x.reg)), x.reg.peerId, i) then Open else Replaced
  }

  function ClientOf(h: Hub, i: nat): Client
    requires i < |h.sessions|
  {
    Client(h.sessions[i].reg, StatusOf(h, i), h.sessions[i].out)
  }

  function Abs(h: Hub): Relay {
    Relay(map k | k in h.byKey :: MembersOf(h, k), seq(|h.sessions|, i requires 0 <= i < |h.sessions| => ClientOf(h, i)))
  }

  /** No handler is between two of its sections, and rooms that have become empty are off the map. */
  predicate AtRest(h: Hub) {
    && Tables(h)
    && (forall s :: 0 <= s < |h.sessions| ==> h.sessions[s].pc.Reading? || h.sessions[s].pc.Finished?)
    && (forall k :: k in h.byKey ==> MembersOf(h, k) != map[])
    && (forall k, id :: k in h.byKey && id in MembersOf(h, k) ==>
          MembersOf(h, k)[id] < |h.sessions| && h.sessions[MembersOf(h, k)[id]].pc.Reading?)
  }

  lemma RoomOfAbs(h: Hub, k: string)
    ensures RoomOf(Abs(h), k) == MembersOf(h, k)
  {
  }

  lemma IsAbs(h: Hub, r: Relay)
    requires r.rooms.Keys == h.byKey.Keys && forall k :: k in h.byKey ==> r.rooms[k] == MembersOf(h, k)
    requires |r.clients| == |h.sessions| && forall i :: 0 <= i < |h.sessions| ==> r.clients[i] == ClientOf(h, i)
    ensures Abs(h) == r
  {
  }

  lemma EntersBoth(h: Hub, reg: Register, order: seq<string>)
    requires Tables(h) && CanEnter(Abs(h), reg, order)
    ensures CanInsert(h, reg, order)
  {
    RoomOfAbs(h, KeyOf(reg));
  }

  lemma DifferentRooms(h: Hub, k: string, k': string)
    requires Tables(h) && k in h.byKey && k' in h.byKey && k != k'
    ensures h.byKey[k] != h.byKey[k']
  {
  }

  // ---------------------------------------------------------------- rooms after an event

  /** The rooms of `h'` are those of `h` but for one key. */
  predicate RoomChanged(h: Hub, h': Hub, k: string, m: map<string, nat>) {
    && h'.byKey.Keys - {k} == h.byKey.Keys - {k}
    && (forall k' :: k' in h'.byKey ==> MembersOf(h', k') == if k' == k then m else MembersOf(h, k'))
  }

  lemma WithRooms(h: Hub, reg: Register, x: Session)
    requires Tables(h)
    ensures RoomChanged(h, With(h, reg, x), KeyOf(reg), NewMembers(h, reg))
    ensures KeyOf(reg) in With(h, reg, x).byKey
  {
    var g, k := With(h, reg, x), KeyOf(reg);
    forall k' | k' in g.byKey
      ensures MembersOf(g, k') == if k' == k then NewMembers(h, reg) else MembersOf(h, k')
    {
      if k' != k && k in h.byKey {
        DifferentRooms(h, k, k');
      }
    }
  }

  lemma CleanedRooms(h: Hub, s: nat, announce: bool)
    requires Tables(h) && s < |h.sessions|
    requires KeyOf(h.sessions[s].reg) in h.byKey
    ensures RoomChanged(h, Cleaned(h, s, announce), KeyOf(h.sessions[s].reg), Left(h, s))
    ensures KeyOf(h.sessions[s].reg) in Cleaned(h, s, announce).byKey <==> Left(h, s) != map[]
  {
    var g, k := Cleaned(h, s, announce), KeyOf(h.sessions[s].reg);
    forall k' | k' in g.byKey
      ensures MembersOf(g, k') == if k' == k then Left(h, s) else MembersOf(h, k')
    {
      if k' != k {
        DifferentRooms(h, k, k');
      }
    }
  }

  lemma OtherRoom(h: Hub, h': Hub, k: string, m: map<string, nat>, k': string)
    requires RoomChanged(h, h', k, m) && k' != k
    ensures MembersOf(h', k') == MembersOf(h, k')
  {
    assert k' in h'.byKey <==> k' in h'.byKey.Keys - {k};
    assert k' in h.byKey <==> k' in h.byKey.Keys - {k};
  }

  predicate RowIs(h: Hub, k: string, id: string) {
    && id in MembersOf(h, k) && MembersOf(h, k)[id] < |h.sessions|
    && h.sessions[MembersOf(h, k)[id]].reg.peerId == id && KeyOf(h.sessions[MembersOf(h, k)[id]].reg) == k
  }

  lemma Rows(h: Hub, k: string, id: string)
    requires Tables(h) && id in MembersOf(h, k)
    ensures RowIs(h, k, id)
  {
    assert RoomOk(h, h.byKey[k]);
    assert SessionOk(h, MembersOf(h, k)[id]);
  }

  /** Rest is restored by a change of one room that leaves the handlers of the others alone. */
  lemma RestAfter(h: Hub, h': Hub, k: string, m: map<string, nat>)
    requires AtRest(h) && Tables(h') && RoomChanged(h, h', k, m) && (k in h'.byKey ==> m != map[])
    requires |h.sessions| <= |h'.sessions|
    requires forall s :: 0 <= s < |h'.sessions| ==> h'.sessions[s].pc.Reading? || h'.sessions[s].pc.Finished?
    requires forall s :: 0 <= s < |h.sessions| && h.sessions[s].pc.Reading? && KeyOf(h.sessions[s].reg) != k ==>
               h'.sessions[s].pc.Reading?
    requires forall id :: id in m ==> m[id] < |h'.sessions| && h'.sessions[m[id]].pc.Reading?
    ensures AtRest(h')
  {
    forall k' | k' in h'.byKey
      ensures MembersOf(h', k') != map[]
      ensures forall id :: id in MembersOf(h', k') ==>
                MembersOf(h', k')[id] < |h'.sessions| && h'.sessions[MembersOf(h', k')[id]].pc.Reading?
    {
      if k' != k {
        OtherRoom(h, h', k, m, k');
        assert k' in h.byKey.Keys - {k} by { assert k' in h'.byKey.Keys - {k}; }
        forall id | id in MembersOf(h, k')
          ensures MembersOf(h, k')[id] < |h'.sessions| && h'.sessions[MembersOf(h, k')[id]].pc.Reading?
        {
          Rows(h, k', id);
        }
      }
    }
  }

  // ---------------------------------------------------------------- arrivals

  /** A room changes at one ID: whoever held it does no more, everybody else is what it was. */
  lemma StatusAfterChange(h: Hub, h': Hub, k: string, id: string, m: map<string, nat>, i: nat)
    requires AtRest(h) && i < |h.sessions| && i < |h'.sessions|
    requires RoomChanged(h, h', k, m) && MembersOf(h', k) == m
    requires m - {id} == MembersOf(h, k) - {id} && (id in m ==> m[id] != i)
    requires h'.sessions[i].reg == h.sessions[i].reg && h'.sessions[i].pc == h.sessions[i].pc
    ensures StatusOf(h', i) == if Holds(MembersOf(h, k), id, i) then Replaced else StatusOf(h, i)
  {
    var y := h.sessions[i];
    if Holds(MembersOf(h, k), id, i) {
      Rows(h, k, id);
    } else if KeyOf(y.reg) != k {
      OtherRoom(h, h', k, m, KeyOf(y.reg));
    } else if y.reg.peerId != id {
      assert y.reg.peerId in m <==> y.reg.peerId in m - {id};
      assert y.reg.peerId in MembersOf(h, k) <==> y.reg.peerId in MembersOf(h, k) - {id};
      assert y.reg.peerId in m ==> (m - {id})[y.reg.peerId] == m[y.reg.peerId];
    }
  }

  lemma ReplaceOf(h: Hub, reg: Register, i: nat)
    requires AtRest(h) && i < |h.sessions|
    ensures forall id :: id in RoomOf(Abs(h), KeyOf(reg)) ==> RoomOf(Abs(h), KeyOf(reg))[id] < |h.sessions|
    ensures |Replace(Abs(h), reg)| == |h.sessions|
    ensures Replace(Abs(h), reg)[i] == Client(h.sessions[i].reg,
              if Holds(MembersOf(h, KeyOf(reg)), reg.peerId, i) then Replaced else StatusOf(h, i), h.sessions[i].out)
  {
    RoomOfAbs(h, KeyOf(reg));
    MembersAreSessions(h, KeyOf(reg));
  }

  /** Whoever held the ID is replaced, everybody else is what it was. */
  lemma StatusAfterEntry(h: Hub, h': Hub, reg: Register, m: map<string, nat>, i: nat)
    requires AtRest(h) && Registered(reg) && i < |h.sessions| && i < |h'.sessions|
    requires RoomChanged(h, h', KeyOf(reg), m) && MembersOf(h', KeyOf(reg)) == m
    requires m == NewMembers(h, reg) || m == Without(MembersOf(h, KeyOf(reg)), reg.peerId)
    requires h'.sessions[i].reg == h.sessions[i].reg && h'.sessions[i].pc == h.sessions[i].pc
    ensures forall id :: id in RoomOf(Abs(h), KeyOf(reg)) ==> RoomOf(Abs(h), KeyOf(reg))[id] < |h.sessions|
    ensures |Replace(Abs(h), reg)| == |h.sessions|
    ensures Replace(Abs(h), reg)[i] == Client(h.sessions[i].reg, StatusOf(h', i), h.sessions[i].out)
  {
    assert m - {reg.peerId} == MembersOf(h, KeyOf(reg)) - {reg.peerId};
    StatusAfterChange(h, h', KeyOf(reg), reg.peerId, m, i);
    ReplaceOf(h, reg, i);
  }

  lemma GreetingsAgree(h: Hub, reg: Register, order: seq<string>)
    requires CanInsert(h, reg, order) && CanEnter(Abs(h), reg, order)
    ensures forall i :: 0 <= i < |order| ==>
              order[i] in RoomOf(Abs(h), KeyOf(reg)) && RoomOf(Abs(h), KeyOf(reg))[order[i]] < |Abs(h).clients|
    ensures Joins(Newcomer(h, reg, order, Confirming, []).existing) == Greetings(Abs(h), KeyOf(reg), order)
  {
    OrderInRoom(Abs(h), reg, order);
    OrderIsMembers(h, reg, order);
    RoomOfAbs(h, KeyOf(reg));
  }

  lemma ArrivedFacts(h: Hub, reg: Register, order: seq<string>)
    requires CanInsert(h, reg, order)
    ensures var x := Newcomer(h, reg, order, Confirming, []);
            var h' := Arrived(h, reg, order);
            && RoomChanged(h, h', KeyOf(reg), NewMembers(h, reg)) && KeyOf(reg) in h'.byKey
            && MembersOf(h', KeyOf(reg)) == NewMembers(h, reg)
            && |h'.sessions| == |h.sessions| + 1
            && h'.sessions[|h.sessions|] == x.(pc := Reading, out := [RegisterOk] + Joins(x.existing))
            && forall i :: 0 <= i < |h.sessions| ==>
                 && h'.sessions[i].reg == h.sessions[i].reg && h'.sessions[i].pc == h.sessions[i].pc
                 && h'.sessions[i].out == h.sessions[i].out
                      + if IsMember(NewMembers(h, reg), i) && h.sessions[i].reg.peerId !in {reg.peerId} then [Join(InfoOf(reg))] else []
  {
    var x := Newcomer(h, reg, order, Confirming, []);
    WithRooms(h, reg, x.(pc := Reading, out := [RegisterOk] + Joins(x.existing)));
    assert forall k :: MembersOf(Arrived(h, reg, order), k) ==
                       MembersOf(With(h, reg, x.(pc := Reading, out := [RegisterOk] + Joins(x.existing))), k);
  }

  /** What one client has been sent, on either side. */
  lemma ArrivalPosts(r: Relay, reg: Register, order: seq<string>, i: nat)
    requires CanEnter(r, reg, order) && i < |r.clients|
    ensures |Replace(r, reg)| == |r.clients| && |ArriveAfter(r, reg, order).clients| == |r.clients| + 1
    ensures var m := Inserted(RoomOf(r, KeyOf(reg)), reg.peerId, |r.clients|);
            var c := Replace(r, reg)[i];
            ArriveAfter(r, reg, order).clients[i] ==
            if IsMember(m, i) && c.reg.peerId !in {reg.peerId} then Post(c, Join(InfoOf(reg))) else c
  {
  }

  lemma ArrivalOf(h: Hub, reg: Register, order: seq<string>, i: nat)
    requires AtRest(h) && CanEnter(Abs(h), reg, order) && CanInsert(h, reg, order) && i < |h.sessions|
    ensures |Arrived(h, reg, order).sessions| == |h.sessions| + 1
    ensures |ArriveAfter(Abs(h), reg, order).clients| == |h.sessions| + 1
    ensures ArriveAfter(Abs(h), reg, order).clients[i] == ClientOf(Arrived(h, reg, order), i)
  {
    ArrivedFacts(h, reg, order);
    RoomOfAbs(h, KeyOf(reg));
    StatusAfterEntry(h, Arrived(h, reg, order), reg, NewMembers(h, reg), i);
    ArrivalPosts(Abs(h), reg, order, i);
    assert h.sessions[i].out + [] == h.sessions[i].out;
  }

  lemma NewcomerOf(h: Hub, reg: Register, order: seq<string>)
    requires AtRest(h) && CanEnter(Abs(h), reg, order) && CanInsert(h, reg, order)
    ensures |Arrived(h, reg, order).sessions| == |h.sessions| + 1
    ensures |ArriveAfter(Abs(h), reg, order).clients| == |h.sessions| + 1
    ensures ArriveAfter(Abs(h), reg, order).clients[|h.sessions|] == ClientOf(Arrived(h, reg, order), |h.sessions|)
  {
    ArrivedFacts(h, reg, order);
    GreetingsAgree(h, reg, order);
    RoomOfAbs(h, KeyOf(reg));
  }

  lemma ArrivedClients(h: Hub, reg: Register, order: seq<string>)
    requires AtRest(h) && CanEnter(Abs(h), reg, order) && CanInsert(h, reg, order)
    ensures |Arrived(h, reg, order).sessions| == |ArriveAfter(Abs(h), reg, order).clients|
    ensures forall i :: 0 <= i < |Arrived(h, reg, order).sessions| ==>
              ArriveAfter(Abs(h), reg, order).clients[i] == ClientOf(Arrived(h, reg, order), i)
  {
    NewcomerOf(h, reg, order);
    forall i | 0 <= i < |h.sessions|
      ensures ArriveAfter(Abs(h), reg, order).clients[i] == ClientOf(Arrived(h, reg, order), i)
    {
      ArrivalOf(h, reg, order, i);
    }
  }

  lemma ArrivedAbs(h: Hub, reg: Register, order: seq<string>)
    requires AtRest(h) && CanEnter(Abs(h), reg, order) && CanInsert(h, reg, order)
    ensures Abs(Arrived(h, reg, order)) == ArriveAfter(Abs(h), reg, order)
  {
    ArrivedClients(h, reg, order);
    ArrivedRooms(h, reg, order);
    IsAbs(Arrived(h, reg, order), ArriveAfter(Abs(h), reg, order));
  }

  lemma ArriveIsEvent(h: Hub, reg: Register, order: seq<string>)
    requires AtRest(h) && CanEnter(Abs(h), reg, order)
    ensures CanInsert(h, reg, order)
    ensures Goes(h, ArriveSteps(|h.sessions|, reg, order), Arrived(h, reg, order))
    ensures Abs(Arrived(h, reg, order)) == ArriveAfter(Abs(h), reg, order) && AtRest(Arrived(h, reg, order))
  {
    EntersBoth(h, reg, order);
    Arrives(h, reg, order);
    GoesTables(h, ArriveSteps(|h.sessions|, reg, order), Arrived(h, reg, order));
    ArrivedAbs(h, reg, order);
    ArrivedAtRest(h, reg, order);
  }

  lemma ArrivedRooms(h: Hub, reg: Register, order: seq<string>)
    requires AtRest(h) && CanInsert(h, reg, order) && CanEnter(Abs(h), reg, order)
    ensures var rooms := ArriveAfter(Abs(h), reg, order).rooms;
            var h' := Arrived(h, reg, order);
            rooms.Keys == h'.byKey.Keys && forall k :: k in h'.byKey ==> rooms[k] == MembersOf(h', k)
  {
    var k, h' := KeyOf(reg), Arrived(h, reg, order);
    ArrivedFacts(h, reg, order);
    RoomOfAbs(h, k);
    assert h'.byKey.Keys == h'.byKey.Keys - {k} + {k} == h.byKey.Keys + {k};
    forall k' | k' in h'.byKey
      ensures ArriveAfter(Abs(h), reg, order).rooms[k'] == MembersOf(h', k')
    {
      if k' != k {
        OtherRoom(h, h', k, NewMembers(h, reg), k');
      }
    }
  }

  lemma ArrivedAtRest(h: Hub, reg: Register, order: seq<string>)
    requires AtRest(h) && CanInsert(h, reg, order) && Tables(Arrived(h, reg, order))
    ensures AtRest(Arrived(h, reg, order))
  {
    ArrivedFacts(h, reg, order);
    assert reg.peerId in NewMembers(h, reg);
    if KeyOf(reg) in h.byKey {
      assert forall id :: id in MembersOf(h, KeyOf(reg)) ==> h.sessions[MembersOf(h, KeyOf(reg))[id]].pc.Reading?;
    }
    RestAfter(h, Arrived(h, reg, order), KeyOf(reg), NewMembers(h, reg));
  }

  // ---------------------------------------------------------------- registrations that fail

  ghost function Failed(h: Hub, reg: Register, order: seq<string>, tried: nat): Hub
    requires CanInsert(h, reg, order) && tried <= |order|
  {
    Cleaned(With(h, reg, Failing(h, reg, order, tried)), |h.sessions|, false)
  }

  ghost function FailSteps(h: Hub, reg: Register, order: seq<string>, tried: nat): seq<Step>
    requires CanInsert(h, reg, order) && tried <= |order|
  {
    FailWrites(|h.sessions|, reg, order, tried)
    + CleanSteps(With(h, reg, Failing(h, reg, order, tried)), |h.sessions|, false)
  }

  lemma Fails(h: Hub, reg: Register, order: seq<string>, tried: nat)
    requires CanInsert(h, reg, order) && tried <= |order|
    ensures Goes(h, FailSteps(h, reg, order, tried), Failed(h, reg, order, tried))
    ensures Tables(With(h, reg, Failing(h, reg, order, tried)))
  {
    var n, g := |h.sessions|, With(h, reg, Failing(h, reg, order, tried));
    FailsToWrite(h, reg, order, tried);
    GoesTables(h, FailWrites(n, reg, order, tried), g);
    Cleans(g, n, false);
    Then(h, FailWrites(n, reg, order, tried), g, CleanSteps(g, n, false), Failed(h, reg, order, tried));
  }

  lemma FailedRooms(h: Hub, reg: Register, order: seq<string>, tried: nat)
    requires CanInsert(h, reg, order) && tried <= |order|
    ensures var m := Without(MembersOf(h, KeyOf(reg)), reg.peerId);
            var h' := Failed(h, reg, order, tried);
            && RoomChanged(h, h', KeyOf(reg), m) && MembersOf(h', KeyOf(reg)) == m
            && (KeyOf(reg) in h'.byKey <==> m != map[])
  {
    var n, k, x := |h.sessions|, KeyOf(reg), Failing(h, reg, order, tried);
    var g, m := With(h, reg, x), Without(MembersOf(h, k), reg.peerId);
    Fails(h, reg, order, tried);
    WithRooms(h, reg, x);
    CleanedRooms(g, n, false);
    assert Left(g, n) == Without(NewMembers(h, reg), reg.peerId) == m;
    var h' := Failed(h, reg, order, tried);
    forall k' | k' in h'.byKey
      ensures MembersOf(h', k') == if k' == k then m else MembersOf(h, k')
    {
      if k' != k {
        OtherRoom(h, g, k, NewMembers(h, reg), k');
      }
    }
  }

  lemma FailedSessions(h: Hub, reg: Register, order: seq<string>, tried: nat)
    requires CanInsert(h, reg, order) && tried <= |order|
    ensures var x := Failing(h, reg, order, tried);
            var h' := Failed(h, reg, order, tried);
            && |h'.sessions| == |h.sessions| + 1 && h'.sessions[|h.sessions|] == Done(x)
            && forall i :: 0 <= i < |h.sessions| ==>
                 && h'.sessions[i].reg == h.sessions[i].reg && h'.sessions[i].pc == h.sessions[i].pc
                 && h'.sessions[i].out == h.sessions[i].out
  {
  }

  lemma FailOld(h: Hub, reg: Register, order: seq<string>, tried: nat, i: nat)
    requires AtRest(h) && CanInsert(h, reg, order) && CanEnter(Abs(h), reg, order) && tried <= |order| && i < |h.sessions|
    ensures |Failed(h, reg, order, tried).sessions| == |h.sessions| + 1
    ensures |FailAfter(Abs(h), reg, order, tried).clients| == |h.sessions| + 1
    ensures FailAfter(Abs(h), reg, order, tried).clients[i] == ClientOf(Failed(h, reg, order, tried), i)
  {
    FailedSessions(h, reg, order, tried);
    FailedRooms(h, reg, order, tried);
    StatusAfterEntry(h, Failed(h, reg, order, tried), reg, Without(MembersOf(h, KeyOf(reg)), reg.peerId), i);
  }

  lemma FailPostsNew(r: Relay, reg: Register, order: seq<string>, tried: nat)
    requires CanEnter(r, reg, order) && tried <= |order|
    ensures forall i :: 0 <= i < |order| ==> order[i] in RoomOf(r, KeyOf(reg)) && RoomOf(r, KeyOf(reg))[order[i]] < |r.clients|
    ensures |FailAfter(r, reg, order, tried).clients| == |r.clients| + 1
    ensures FailAfter(r, reg, order, tried).clients[|r.clients|] ==
            Client(reg, Exited, [RegisterOk] + Greetings(r, KeyOf(reg), order)[..tried])
  {
    OrderInRoom(r, reg, order);
  }

  lemma JoinsPrefix(infos: seq<Info>, n: nat)
    requires n <= |infos|
    ensures Joins(infos[..n]) == Joins(infos)[..n]
  {
  }

  lemma FailedNewcomer(h: Hub, reg: Register, order: seq<string>, tried: nat)
    requires CanInsert(h, reg, order) && tried <= |order|
    ensures |Failed(h, reg, order, tried).sessions| == |h.sessions| + 1
    ensures ClientOf(Failed(h, reg, order, tried), |h.sessions|) ==
            Client(reg, Exited, [RegisterOk] + Joins(Newcomer(h, reg, order, Confirming, []).existing)[..tried])
  {
    FailedSessions(h, reg, order, tried);
    JoinsPrefix(Newcomer(h, reg, order, Confirming, []).existing, tried);
  }

  lemma FailNew(h: Hub, reg: Register, order: seq<string>, tried: nat)
    requires CanInsert(h, reg, order) && CanEnter(Abs(h), reg, order) && tried <= |order|
    ensures |Failed(h, reg, order, tried).sessions| == |h.sessions| + 1
    ensures |FailAfter(Abs(h), reg, order, tried).clients| == |h.sessions| + 1
    ensures FailAfter(Abs(h), reg, order, tried).clients[|h.sessions|] == ClientOf(Failed(h, reg, order, tried), |h.sessions|)
  {
    AbsClients(h);
    GreetingsAgree(h, reg, order);
    FailPostsNew(Abs(h), reg, order, tried);
    FailedNewcomer(h, reg, order, tried);
  }

  lemma FailRooms(h: Hub, reg: Register, order: seq<string>, tried: nat)
    requires AtRest(h) && CanInsert(h, reg, order) && CanEnter(Abs(h), reg, order) && tried <= |order|
    ensures var rooms := FailAfter(Abs(h), reg, order, tried).rooms;
            var h' := Failed(h, reg, order, tried);
            rooms.Keys == h'.byKey.Keys && forall k :: k in h'.byKey ==> rooms[k] == MembersOf(h', k)
  {
    FailedRooms(h, reg, order, tried);
    RoomOfAbs(h, KeyOf(reg));
    SetRoomIs(h, Failed(h, reg, order, tried), KeyOf(reg), Without(MembersOf(h, KeyOf(reg)), reg.peerId));
  }

  lemma SetRoomIs(h: Hub, h': Hub, k: string, m: map<string, nat>)
    requires RoomChanged(h, h', k, m) && (k in h'.byKey <==> m != map[])
    ensures var rooms := SetRoom(Abs(h).rooms, k, m);
            rooms.Keys == h'.byKey.Keys && forall k :: k in h'.byKey ==> rooms[k] == MembersOf(h', k)
  {
    assert forall k' :: k' in h'.byKey.Keys && k' != k <==> k' in h'.byKey.Keys - {k};
    assert forall k' :: k' in h.byKey.Keys && k' != k <==> k' in h.byKey.Keys - {k};
    forall k' | k' in h'.byKey && k' != k
      ensures MembersOf(h', k') == MembersOf(h, k')
    {
      OtherRoom(h, h', k, m, k');
    }
  }

  lemma FailedAbs(h: Hub, reg: Register, order: seq<string>, tried: nat)
    requires AtRest(h) && CanEnter(Abs(h), reg, order) && CanInsert(h, reg, order) && tried <= |order|
    ensures Abs(Failed(h, reg, order, tried)) == FailAfter(Abs(h), reg, order, tried)
  {
    FailNew(h, reg, order, tried);
    forall i | 0 <= i < |h.sessions|
      ensures FailAfter(Abs(h), reg, order, tried).clients[i] == ClientOf(Failed(h, reg, order, tried), i)
    {
      FailOld(h, reg, order, tried, i);
    }
    FailRooms(h, reg, order, tried);
    IsAbs(Failed(h, reg, order, tried), FailAfter(Abs(h), reg, order, tried));
  }

  lemma FailIsEvent(h: Hub, reg: Register, order: seq<string>, tried: nat)
    requires AtRest(h) && CanEnter(Abs(h), reg, order) && tried <= |order|
    ensures CanInsert(h, reg, order)
    ensures Goes(h, FailSteps(h, reg, order, tried), Failed(h, reg, order, tried))
    ensures Abs(Failed(h, reg, order, tried)) == FailAfter(Abs(h), reg, order, tried)
    ensures AtRest(Failed(h, reg, order, tried))
  {
    EntersBoth(h, reg, order);
    Fails(h, reg, order, tried);
    GoesTables(h, FailSteps(h, reg, order, tried), Failed(h, reg, order, tried));
    FailedAbs(h, reg, order, tried);
    FailedAtRest(h, reg, order, tried);
  }

  lemma FailedAtRest(h: Hub, reg: Register, order: seq<string>, tried: nat)
    requires AtRest(h) && CanInsert(h, reg, order) && tried <= |order| && Tables(Failed(h, reg, order, tried))
    ensures AtRest(Failed(h, reg, order, tried))
  {
    FailedSessions(h, reg, order, tried);
    FailedRooms(h, reg, order, tried);
    var m := MembersOf(h, KeyOf(reg));
    if KeyOf(reg) in h.byKey {
      assert forall id :: id in m ==> h.sessions[m[id]].pc.Reading?;
    }
    RestAfter(h, Failed(h, reg, order, tried), KeyOf(reg), Without(m, reg.peerId));
  }

  // ---------------------------------------------------------------- departures

  function Dropped(h: Hub, s: nat): Hub
    requires s < |h.sessions|
  {
    SetSession(h, s, h.sessions[s].(pc := Cleaning(true)))
  }

  ghost function ExitSteps(h: Hub, s: nat): seq<Step>
    requires s < |h.sessions|
  {
    [ReadFails(s)] + CleanSteps(Dropped(h, s), s, true)
  }

  function Exits(h: Hub, s: nat): Hub
    requires s < |h.sessions|
  {
    Cleaned(Dropped(h, s), s, true)
  }

  lemma ExitGoes(h: Hub, s: nat)
    requires Tables(h) && s < |h.sessions| && h.sessions[s].pc.Reading?
    ensures Goes(h, ExitSteps(h, s), Exits(h, s)) && Tables(Dropped(h, s)) && Tables(Exits(h, s))
  {
    var g := Dropped(h, s);
    One(h, ReadFails(s), g);
    GoesTables(h, [ReadFails(s)], g);
    Cleans(g, s, true);
    GoesTables(g, CleanSteps(g, s, true), Exits(h, s));
    Then(h, [ReadFails(s)], g, CleanSteps(g, s, true), Exits(h, s));
  }

  /** A session that is not mapped goes without a word. */
  lemma ExitUnmapped(h: Hub, s: nat)
    requires AtRest(h) && s < |h.sessions| && h.sessions[s].pc.Reading?
    requires !Holds(MembersOf(h, KeyOf(h.sessions[s].reg)), h.sessions[s].reg.peerId, s)
    ensures var h' := Exits(h, s);
            h'.byKey == h.byKey && h'.rooms == h.rooms && h'.sessions == h.sessions[s := Done(h.sessions[s])]
  {
    var g, k := Dropped(h, s), KeyOf(h.sessions[s].reg);
    assert MembersOf(g, k) == MembersOf(h, k) && Left(g, s) == MembersOf(h, k);
  }

  lemma ExitMappedRooms(h: Hub, s: nat)
    requires AtRest(h) && s < |h.sessions| && h.sessions[s].pc.Reading?
    requires Holds(MembersOf(h, KeyOf(h.sessions[s].reg)), h.sessions[s].reg.peerId, s)
    ensures var k, h' := KeyOf(h.sessions[s].reg), Exits(h, s);
            var m := Without(MembersOf(h, k), h.sessions[s].reg.peerId);
            RoomChanged(h, h', k, m) && MembersOf(h', k) == m && (k in h'.byKey <==> m != map[])
  {
    var g, k := Dropped(h, s), KeyOf(h.sessions[s].reg);
    ExitGoes(h, s);
    assert forall k' :: MembersOf(g, k') == MembersOf(h, k');
    CleanedRooms(g, s, true);
  }

  lemma ExitMappedSessions(h: Hub, s: nat, i: nat)
    requires AtRest(h) && s < |h.sessions| && h.sessions[s].pc.Reading? && i < |h.sessions|
    requires Holds(MembersOf(h, KeyOf(h.sessions[s].reg)), h.sessions[s].reg.peerId, s)
    ensures var x, y := h.sessions[s], h.sessions[i];
            var m := Without(MembersOf(h, KeyOf(x.reg)), x.reg.peerId);
            && |Exits(h, s).sessions| == |h.sessions|
            && Exits(h, s).sessions[i] ==
                 if i == s then Done(x) else if IsMember(m, i) then Say(y, Leave(x.reg.peerId)) else y
  {
    var g, k := Dropped(h, s), KeyOf(h.sessions[s].reg);
    assert MembersOf(g, k) == MembersOf(h, k);
  }

  lemma ExitPosts(r: Relay, s: nat, i: nat)
    requires s < |r.clients| && i < |r.clients| && InPlace(r, s)
    ensures |ExitAfter(r, s).clients| == |r.clients|
    ensures var c, x := r.clients[i], r.clients[s];
            var m := Without(RoomOf(r, KeyOf(x.reg)), x.reg.peerId);
            ExitAfter(r, s).clients[i] ==
              var p := if IsMember(m, i) && c.reg.peerId !in {} then Post(c, Leave(x.reg.peerId)) else c;
              if i == s then p.(status := Exited) else p
  {
  }

  lemma ExitMappedOf(h: Hub, s: nat, i: nat)
    requires AtRest(h) && s < |h.sessions| && i < |h.sessions| && h.sessions[s].pc.Reading?
    requires Holds(MembersOf(h, KeyOf(h.sessions[s].reg)), h.sessions[s].reg.peerId, s)
    ensures |Exits(h, s).sessions| == |ExitAfter(Abs(h), s).clients| == |h.sessions|
    ensures ExitAfter(Abs(h), s).clients[i] == ClientOf(Exits(h, s), i)
  {
    var k, id := KeyOf(h.sessions[s].reg), h.sessions[s].reg.peerId;
    RoomOfAbs(h, k);
    assert Abs(h).clients[s].reg == h.sessions[s].reg && Abs(h).clients[i] == ClientOf(h, i);
    ExitPosts(Abs(h), s, i);
    ExitMappedSessions(h, s, i);
    NotLeft(h, s);
    if i != s {
      ExitStatus(h, s, i);
    }
  }

  lemma ExitStatus(h: Hub, s: nat, i: nat)
    requires AtRest(h) && s < |h.sessions| && i < |h.sessions| && i != s && h.sessions[s].pc.Reading?
    requires Holds(MembersOf(h, KeyOf(h.sessions[s].reg)), h.sessions[s].reg.peerId, s)
    ensures i < |Exits(h, s).sessions| && StatusOf(Exits(h, s), i) == StatusOf(h, i)
  {
    var k, id := KeyOf(h.sessions[s].reg), h.sessions[s].reg.peerId;
    var m := Without(MembersOf(h, k), id);
    ExitMappedRooms(h, s);
    ExitMappedSessions(h, s, i);
    assert m - {id} == MembersOf(h, k) - {id};
    StatusAfterChange(h, Exits(h, s), k, id, m, i);
  }

  /** A session is in its room's table under one ID only. */
  lemma NotLeft(h: Hub, s: nat)
    requires Tables(h) && s < |h.sessions|
    ensures !IsMember(Without(MembersOf(h, KeyOf(h.sessions[s].reg)), h.sessions[s].reg.peerId), s)
  {
    var k := KeyOf(h.sessions[s].reg);
    var m := Without(MembersOf(h, k), h.sessions[s].reg.peerId);
    if IsMember(m, s) {
      var p :| p in m && m[p] == s;
      Rows(h, k, p);
    }
  }

  lemma ExitUnmappedOf(h: Hub, s: nat, i: nat)
    requires AtRest(h) && s < |h.sessions| && i < |h.sessions| && h.sessions[s].pc.Reading?
    requires !Holds(MembersOf(h, KeyOf(h.sessions[s].reg)), h.sessions[s].reg.peerId, s)
    ensures |Exits(h, s).sessions| == |ExitAfter(Abs(h), s).clients| == |h.sessions|
    ensures ExitAfter(Abs(h), s).clients[i] == ClientOf(Exits(h, s), i)
  {
    ExitUnmapped(h, s);
    RoomOfAbs(h, KeyOf(h.sessions[s].reg));
    assert MembersOf(Exits(h, s), KeyOf(h.sessions[i].reg)) == MembersOf(h, KeyOf(h.sessions[i].reg));
  }

  lemma ExitOf(h: Hub, s: nat, i: nat)
    requires AtRest(h) && s < |h.sessions| && i < |h.sessions| && h.sessions[s].pc.Reading?
    ensures |Exits(h, s).sessions| == |ExitAfter(Abs(h), s).clients| == |h.sessions|
    ensures ExitAfter(Abs(h), s).clients[i] == ClientOf(Exits(h, s), i)
  {
    if Holds(MembersOf(h, KeyOf(h.sessions[s].reg)), h.sessions[s].reg.peerId, s) {
      ExitMappedOf(h, s, i);
    } else {
      ExitUnmappedOf(h, s, i);
    }
  }

  lemma ExitRooms(h: Hub, s: nat)
    requires AtRest(h) && s < |h.sessions| && h.sessions[s].pc.Reading?
    ensures var rooms := ExitAfter(Abs(h), s).rooms;
            var h' := Exits(h, s);
            rooms.Keys == h'.byKey.Keys && forall k :: k in h'.byKey ==> rooms[k] == MembersOf(h', k)
  {
    var k, id := KeyOf(h.sessions[s].reg), h.sessions[s].reg.peerId;
    RoomOfAbs(h, k);
    if Holds(MembersOf(h, k), id, s) {
      ExitMappedRooms(h, s);
      SetRoomIs(h, Exits(h, s), k, Without(MembersOf(h, k), id));
    } else {
      ExitUnmapped(h, s);
      assert forall k' :: MembersOf(Exits(h, s), k') == MembersOf(h, k');
    }
  }

  lemma ExitMappedPcs(h: Hub, s: nat)
    requires AtRest(h) && s < |h.sessions| && h.sessions[s].pc.Reading?
    requires Holds(MembersOf(h, KeyOf(h.sessions[s].reg)), h.sessions[s].reg.peerId, s)
    ensures |Exits(h, s).sessions| == |h.sessions|
    ensures forall i :: 0 <= i < |h.sessions| ==>
              Exits(h, s).sessions[i].pc == if i == s then Finished else h.sessions[i].pc
  {
    ExitMappedSessions(h, s, s);
    forall i | 0 <= i < |h.sessions|
      ensures Exits(h, s).sessions[i].pc == if i == s then Finished else h.sessions[i].pc
    {
      ExitMappedSessions(h, s, i);
    }
  }

  lemma LeftAreReading(h: Hub, s: nat, p: string)
    requires AtRest(h) && s < |h.sessions|
    requires Holds(MembersOf(h, KeyOf(h.sessions[s].reg)), h.sessions[s].reg.peerId, s)
    requires p in Without(MembersOf(h, KeyOf(h.sessions[s].reg)), h.sessions[s].reg.peerId)
    ensures var m := MembersOf(h, KeyOf(h.sessions[s].reg)); m[p] < |h.sessions| && m[p] != s && h.sessions[m[p]].pc.Reading?
  {
    Rows(h, KeyOf(h.sessions[s].reg), p);
  }

  lemma ExitMappedAtRest(h: Hub, s: nat)
    requires AtRest(h) && s < |h.sessions| && h.sessions[s].pc.Reading?
    requires Holds(MembersOf(h, KeyOf(h.sessions[s].reg)), h.sessions[s].reg.peerId, s)
    requires Tables(Exits(h, s))
    ensures AtRest(Exits(h, s))
  {
    var k := KeyOf(h.sessions[s].reg);
    var m := Without(MembersOf(h, k), h.sessions[s].reg.peerId);
    ExitMappedRooms(h, s);
    ExitMappedPcs(h, s);
    forall p | p in m
      ensures m[p] < |h.sessions| && m[p] != s && h.sessions[m[p]].pc.Reading?
    {
      LeftAreReading(h, s, p);
    }
    RestAfter(h, Exits(h, s), k, m);
  }

  lemma ExitAtRest(h: Hub, s: nat)
    requires AtRest(h) && s < |h.sessions| && h.sessions[s].pc.Reading?
    ensures AtRest(Exits(h, s))
  {
    ExitGoes(h, s);
    if Holds(MembersOf(h, KeyOf(h.sessions[s].reg)), h.sessions[s].reg.peerId, s) {
      ExitMappedAtRest(h, s);
    } else {
      ExitUnmapped(h, s);
      RestUnmapped(h, Exits(h, s), s);
    }
  }

  lemma RestUnmapped(h: Hub, h': Hub, s: nat)
    requires AtRest(h) && Tables(h') && s < |h.sessions| && h.sessions[s].pc.Reading?
    requires !Holds(MembersOf(h, KeyOf(h.sessions[s].reg)), h.sessions[s].reg.peerId, s)
    requires h'.byKey == h.byKey && h'.rooms == h.rooms && h'.sessions == h.sessions[s := Done(h.sessions[s])]
    ensures AtRest(h')
  {
    forall k, id | k in h'.byKey && id in MembersOf(h', k)
      ensures MembersOf(h', k)[id] < |h'.sessions| && h'.sessions[MembersOf(h', k)[id]].pc.Reading?
    {
      assert MembersOf(h', k) == MembersOf(h, k);
      Rows(h, k, id);
    }
    assert forall k :: MembersOf(h', k) == MembersOf(h, k);
  }

  lemma ExitIsEvent(h: Hub, s: nat)
    requires AtRest(h) && s < |h.sessions| && !StatusOf(h, s).Exited?
    ensures Goes(h, ExitSteps(h, s), Exits(h, s))
    ensures Abs(Exits(h, s)) == ExitAfter(Abs(h), s) && AtRest(Exits(h, s))
  {
    ExitGoes(h, s);
    ExitAtRest(h, s);
    ExitOf(h, s, s);
    forall i | 0 <= i < |h.sessions|
      ensures ExitAfter(Abs(h), s).clients[i] == ClientOf(Exits(h, s), i)
    {
      ExitOf(h, s, i);
    }
    ExitRooms(h, s);
    IsAbs(Exits(h, s), ExitAfter(Abs(h), s));
  }

  // ---------------------------------------------------------------- data and pings

  function SendSteps(s: nat, data: Data, ok: bool): seq<Step> {
    [ReadData(s, data)] + [Forward(s, ok)]
  }

  /** Where a frame goes, if anywhere. */
  predicate HasTarget(h: Hub, s: nat, data: Data)
    requires s < |h.sessions|
  {
    var m := MembersOf(h, KeyOf(h.sessions[s].reg));
    data.to in m && m[data.to] < |h.sessions| && h.sessions[m[data.to]].reg.peerId != h.sessions[s].reg.peerId
  }

  function Sent(h: Hub, s: nat, data: Data, ok: bool): Hub
    requires s < |h.sessions|
  {
    if !HasTarget(h, s, data) then h
    else
      var t := MembersOf(h, KeyOf(h.sessions[s].reg))[data.to];
      var msg := Deliver(h.sessions[s].reg.peerId, data.msgType, data.payload);
      var y := Say(h.sessions[t], msg);
      h.(sessions := h.sessions[t := y.(closed := y.closed || !ok)], log := h.log + [Delivery(s, data, t, msg)])
  }

  /** A write to a socket that has been closed does not succeed. */
  predicate CanWrite(h: Hub, s: nat, data: Data, ok: bool)
    requires s < |h.sessions|
  {
    var m := MembersOf(h, KeyOf(h.sessions[s].reg));
    data.to in m && m[data.to] < |h.sessions| && h.sessions[m[data.to]].closed ==> !ok
  }

  function Routed(h: Hub, s: nat, data: Data): Hub
    requires s < |h.sessions| && KeyOf(h.sessions[s].reg) in h.byKey
  {
    SetSession(h, s, h.sessions[s].(pc := Routing(data, h.byKey[KeyOf(h.sessions[s].reg)])))
  }

  lemma ForwardReaches(h: Hub, s: nat, data: Data, ok: bool)
    requires AtRest(h) && s < |h.sessions| && h.sessions[s].pc.Reading? && CanWrite(h, s, data, ok)
    requires KeyOf(h.sessions[s].reg) in h.byKey && HasTarget(h, s, data)
    ensures Goes(Routed(h, s, data), [Forward(s, ok)], Sent(h, s, data, ok))
  {
    assert MembersOf(h, KeyOf(h.sessions[s].reg))[data.to] != s;
    One(Routed(h, s, data), Forward(s, ok), Sent(h, s, data, ok));
  }

  lemma ForwardMisses(h: Hub, s: nat, data: Data, ok: bool)
    requires AtRest(h) && s < |h.sessions| && h.sessions[s].pc.Reading? && CanWrite(h, s, data, ok)
    requires KeyOf(h.sessions[s].reg) in h.byKey && !HasTarget(h, s, data)
    ensures Goes(Routed(h, s, data), [Forward(s, ok)], h)
  {
    MembersAreSessions(h, KeyOf(h.sessions[s].reg));
    assert Routed(h, s, data).sessions[s := h.sessions[s]] == h.sessions;
    One(Routed(h, s, data), Forward(s, ok), h);
  }

  lemma SendGoes(h: Hub, s: nat, data: Data, ok: bool)
    requires AtRest(h) && s < |h.sessions| && StatusOf(h, s).Open? && CanWrite(h, s, data, ok)
    ensures Goes(h, SendSteps(s, data, ok), Sent(h, s, data, ok))
  {
    One(h, ReadData(s, data), Routed(h, s, data));
    if HasTarget(h, s, data) {
      ForwardReaches(h, s, data, ok);
    } else {
      ForwardMisses(h, s, data, ok);
    }
    Then(h, [ReadData(s, data)], Routed(h, s, data), [Forward(s, ok)], Sent(h, s, data, ok));
  }

  /** Frames written and sockets closed change nothing in the rooms. */
  lemma SameClient(h: Hub, h': Hub, i: nat)
    requires h'.byKey == h.byKey && h'.rooms == h.rooms && i < |h.sessions| && i < |h'.sessions|
    requires h'.sessions[i].reg == h.sessions[i].reg && h'.sessions[i].pc == h.sessions[i].pc
    ensures ClientOf(h', i) == ClientOf(h, i).(out := h'.sessions[i].out)
  {
    assert MembersOf(h', KeyOf(h.sessions[i].reg)) == MembersOf(h, KeyOf(h.sessions[i].reg));
  }

  lemma SendPosts(r: Relay, s: nat, data: Data, i: nat)
    requires CanSend(r, s, data) && i < |r.clients|
    ensures SendAfter(r, s, data).rooms == r.rooms && |SendAfter(r, s, data).clients| == |r.clients|
    ensures var x, m := r.clients[s], RoomOf(r, KeyOf(r.clients[s].reg));
            SendAfter(r, s, data).clients[i] ==
            if data.to in m && r.clients[m[data.to]].reg.peerId != x.reg.peerId && m[data.to] == i
            then Post(r.clients[i], Deliver(x.reg.peerId, data.msgType, data.payload)) else r.clients[i]
  {
  }

  lemma SentOut(h: Hub, s: nat, data: Data, ok: bool, i: nat)
    requires Tables(h) && s < |h.sessions| && i < |h.sessions|
    ensures |Sent(h, s, data, ok).sessions| == |h.sessions|
    ensures var x, m := h.sessions[s], MembersOf(h, KeyOf(h.sessions[s].reg));
            var y, z := h.sessions[i], Sent(h, s, data, ok).sessions[i];
            && z.reg == y.reg && z.pc == y.pc
            && z.out == if HasTarget(h, s, data) && m[data.to] == i
                        then y.out + [Deliver(x.reg.peerId, data.msgType, data.payload)] else y.out
  {
  }

  lemma AbsClient(h: Hub, i: nat)
    requires i < |h.sessions|
    ensures |Abs(h).clients| == |h.sessions| && Abs(h).clients[i] == ClientOf(h, i)
  {
  }

  lemma SendClient(h: Hub, s: nat, data: Data, ok: bool, i: nat)
    requires AtRest(h) && CanSend(Abs(h), s, data) && i < |h.sessions|
    ensures |Sent(h, s, data, ok).sessions| == |SendAfter(Abs(h), s, data).clients| == |h.sessions|
    ensures SendAfter(Abs(h), s, data).clients[i] == ClientOf(Sent(h, s, data, ok), i)
  {
    var k := KeyOf(h.sessions[s].reg);
    AbsClient(h, s);
    AbsClient(h, i);
    RoomOfAbs(h, k);
    MembersAreSessions(h, k);
    if data.to in MembersOf(h, k) {
      AbsClient(h, MembersOf(h, k)[data.to]);
    }
    SendPosts(Abs(h), s, data, i);
    SentOut(h, s, data, ok, i);
    SameClient(h, Sent(h, s, data, ok), i);
  }

  /** The same rooms, and clients as given. */
  lemma AbsWithClients(h: Hub, h': Hub, r: Relay)
    requires h'.byKey == h.byKey && h'.rooms == h.rooms && r.rooms == Abs(h).rooms
    requires |r.clients| == |h'.sessions| && forall i :: 0 <= i < |h'.sessions| ==> r.clients[i] == ClientOf(h', i)
    ensures Abs(h') == r
  {
    assert forall k :: MembersOf(h', k) == MembersOf(h, k);
    IsAbs(h', r);
  }

  lemma SendClients(h: Hub, s: nat, data: Data, ok: bool)
    requires AtRest(h) && CanSend(Abs(h), s, data)
    ensures |Sent(h, s, data, ok).sessions| == |SendAfter(Abs(h), s, data).clients|
    ensures forall i :: 0 <= i < |Sent(h, s, data, ok).sessions| ==>
              SendAfter(Abs(h), s, data).clients[i] == ClientOf(Sent(h, s, data, ok), i)
  {
    AbsClient(h, s);
    SendClient(h, s, data, ok, s);
    forall i | 0 <= i < |h.sessions|
      ensures SendAfter(Abs(h), s, data).clients[i] == ClientOf(Sent(h, s, data, ok), i)
    {
      SendClient(h, s, data, ok, i);
    }
  }

  lemma SentRooms(h: Hub, s: nat, data: Data, ok: bool)
    requires s < |h.sessions|
    ensures Sent(h, s, data, ok).byKey == h.byKey && Sent(h, s, data, ok).rooms == h.rooms
  {
  }

  lemma SendOf(h: Hub, s: nat, data: Data, ok: bool)
    requires AtRest(h) && CanSend(Abs(h), s, data)
    ensures s < |h.sessions| && Abs(Sent(h, s, data, ok)) == SendAfter(Abs(h), s, data)
  {
    AbsClients(h);
    SendClients(h, s, data, ok);
    SentRooms(h, s, data, ok);
    SendPosts(Abs(h), s, data, s);
    AbsWithClients(h, Sent(h, s, data, ok), SendAfter(Abs(h), s, data));
  }

  lemma AbsClients(h: Hub)
    ensures |Abs(h).clients| == |h.sessions|
  {
  }

  lemma SentPcs(h: Hub, s: nat, data: Data, ok: bool)
    requires s < |h.sessions|
    ensures var h' := Sent(h, s, data, ok);
            |h'.sessions| == |h.sessions| && forall i :: 0 <= i < |h.sessions| ==> h'.sessions[i].pc == h.sessions[i].pc
  {
  }

  lemma SendRests(h: Hub, s: nat, data: Data, ok: bool)
    requires AtRest(h) && s < |h.sessions| && StatusOf(h, s).Open? && CanWrite(h, s, data, ok)
    ensures Goes(h, SendSteps(s, data, ok), Sent(h, s, data, ok)) && AtRest(Sent(h, s, data, ok))
  {
    SendGoes(h, s, data, ok);
    GoesTables(h, SendSteps(s, data, ok), Sent(h, s, data, ok));
    SentRooms(h, s, data, ok);
    SentPcs(h, s, data, ok);
    SameRoomsAtRest(h, Sent(h, s, data, ok));
  }

  lemma SendIsEvent(h: Hub, s: nat, data: Data, ok: bool)
    requires AtRest(h) && CanSend(Abs(h), s, data) && s < |h.sessions| && CanWrite(h, s, data, ok)
    ensures Goes(h, SendSteps(s, data, ok), Sent(h, s, data, ok))
    ensures Abs(Sent(h, s, data, ok)) == SendAfter(Abs(h), s, data) && AtRest(Sent(h, s, data, ok))
  {
    SendOf(h, s, data, ok);
    AbsClient(h, s);
    SendRests(h, s, data, ok);
  }

  lemma SameRoomsAtRest(h: Hub, h': Hub)
    requires AtRest(h) && Tables(h') && h'.byKey == h.byKey && h'.rooms == h.rooms && |h'.sessions| == |h.sessions|
    requires forall i :: 0 <= i < |h.sessions| ==> h'.sessions[i].pc == h.sessions[i].pc
    ensures AtRest(h')
  {
    assert forall k :: MembersOf(h', k) == MembersOf(h, k);
  }

  function Echoed(h: Hub, s: nat): Hub
    requires s < |h.sessions|
  {
    SetSession(h, s, Say(h.sessions[s], Pong))
  }

  lemma EchoOf(h: Hub, s: nat)
    requires s < |h.sessions|
    ensures Abs(Echoed(h, s)) == EchoAfter(Abs(h), s)
  {
    forall i | 0 <= i < |h.sessions|
      ensures EchoAfter(Abs(h), s).clients[i] == ClientOf(Echoed(h, s), i)
    {
      SameClient(h, Echoed(h, s), i);
    }
    assert forall k :: MembersOf(Echoed(h, s), k) == MembersOf(h, k);
    IsAbs(Echoed(h, s), EchoAfter(Abs(h), s));
  }

  lemma EchoIsEvent(h: Hub, s: nat)
    requires AtRest(h) && s < |h.sessions| && !StatusOf(h, s).Exited?
    ensures Goes(h, [ReadPing(s)], Echoed(h, s))
    ensures Abs(Echoed(h, s)) == EchoAfter(Abs(h), s) && AtRest(Echoed(h, s))
  {
    One(h, ReadPing(s), Echoed(h, s));
    GoesTables(h, [ReadPing(s)], Echoed(h, s));
    SameRoomsAtRest(h, Echoed(h, s));
    EchoOf(h, s);
  }

  // ---------------------------------------------------------------- runs without interruption

  predicate Writable(h: Hub, e: Event, ok: bool) {
    e.Send? && e.s < |h.sessions| ==> CanWrite(h, e.s, e.data, ok)
  }

  /** The sections of the handler that an event stands for, one after the other; `ok` is whether the frame of a
      `Send` could be written. */
  ghost function Sections(h: Hub, e: Event, ok: bool): seq<Step>
    requires Tables(h) && Possible(Abs(h), e)
  {
    match e
    case Arrive(reg, order) => ArriveSteps(|h.sessions|, reg, order)
    case Fail(reg, order, tried) =>
      EntersBoth(h, reg, order);
      FailSteps(h, reg, order, tried)
    case Exit(s) => ExitSteps(h, s)
    case Send(s, data) => SendSteps(s, data, ok)
    case Echo(s) => [ReadPing(s)]
  }

  /** From rest, the uninterrupted sections lead to rest again, and what they have done is the event. */
  lemma SectionsAreTheEvent(h: Hub, e: Event, ok: bool) returns (h': Hub)
    requires AtRest(h) && Possible(Abs(h), e) && Writable(h, e, ok)
    ensures Goes(h, Sections(h, e, ok), h')
    ensures AtRest(h') && Abs(h') == After(Abs(h), e)
  {
    match e
    case Arrive(reg, order) =>
      ArriveIsEvent(h, reg, order);
      h' := Arrived(h, reg, order);
    case Fail(reg, order, tried) =>
      FailIsEvent(h, reg, order, tried);
      h' := Failed(h, reg, order, tried);
    case Exit(s) =>
      ExitIsEvent(h, s);
      h' := Exits(h, s);
    case Send(s, data) =>
      SendIsEvent(h, s, data, ok);
      h' := Sent(h, s, data, ok);
    case Echo(s) =>
      EchoIsEvent(h, s);
      h' := Echoed(h, s);
  }

  lemma {:induction false} GoesIsUnique(h: Hub, steps: seq<Step>, a: Hub, b: Hub)
    requires Goes(h, steps, a) && Goes(h, steps, b)
    ensures a == b
    decreases |steps|
  {
    if steps != [] {
      GoesIsUnique(Next(h, steps[0]), steps[1..], a, b);
    }
  }

  /** The handlers run one at a time. */
  ghost predicate Serial(hs: seq<Hub>, es: seq<Event>, oks: seq<bool>) {
    && |hs| == |es| + 1 && |oks| == |es| && hs[0] == EMPTY_HUB
    && forall i :: 0 <= i < |es| ==> SerialAt(hs, es, oks, i)
  }

  ghost predicate SerialAt(hs: seq<Hub>, es: seq<Event>, oks: seq<bool>, i: nat)
    requires |hs| == |es| + 1 && |oks| == |es| && i < |es|
  {
    && Tables(hs[i]) && Possible(Abs(hs[i]), es[i]) && Writable(hs[i], es[i], oks[i])
    && Goes(hs[i], Sections(hs[i], es[i], oks[i]), hs[i + 1])
  }

  function AbsAll(hs: seq<Hub>): (rs: seq<Relay>)
    ensures |rs| == |hs|
  {
    seq(|hs|, i requires 0 <= i < |hs| => Abs(hs[i]))
  }

  lemma SerialStep(hs: seq<Hub>, es: seq<Event>, oks: seq<bool>, i: nat)
    requires Serial(hs, es, oks) && i < |es| && AtRest(hs[i])
    ensures AtRest(hs[i + 1])
    ensures Possible(Abs(hs[i]), es[i]) && Abs(hs[i + 1]) == After(Abs(hs[i]), es[i])
  {
    assert SerialAt(hs, es, oks, i);
    var h' := SectionsAreTheEvent(hs[i], es[i], oks[i]);
    GoesIsUnique(hs[i], Sections(hs[i], es[i], oks[i]), h', hs[i + 1]);
  }

  lemma {:induction false} SerialAtRest(hs: seq<Hub>, es: seq<Event>, oks: seq<bool>, i: nat)
    requires Serial(hs, es, oks) && i <= |es|
    ensures AtRest(hs[i])
  {
    if i > 0 {
      SerialAtRest(hs, es, oks, i - 1);
      SerialStep(hs, es, oks, i - 1);
    }
  }

  lemma SerialIsHistory(hs: seq<Hub>, es: seq<Event>, oks: seq<bool>)
    requires Serial(hs, es, oks)
    ensures History(AbsAll(hs), es)
  {
    assert Abs(EMPTY_HUB) == EMPTY_RELAY;
    forall i | 0 <= i < |es|
      ensures Follows(AbsAll(hs), es, i)
    {
      SerialAtRest(hs, es, oks, i);
      SerialStep(hs, es, oks, i);
    }
  }

  /** At lock granularity, when the handlers run one at a time: a mapped session has been sent frames that add up to
      exactly its room unless, while it was there, a registration that found its ID mapped failed and no later one
      with that ID has gone through. */
  lemma SerialViewIff(hs: seq<Hub>, es: seq<Event>, oks: seq<bool>, i: nat, s: nat)
    requires Serial(hs, es, oks) && i <= |es|
    requires s < |hs[i].sessions| && !hs[i].sessions[s].pc.Finished?
    requires Holds(MembersOf(hs[i], KeyOf(hs[i].sessions[s].reg)), hs[i].sessions[s].reg.peerId, s)
    ensures var x := hs[i].sessions[s];
            Fold(x.reg.peerId, {}, x.out) == MembersOf(hs[i], KeyOf(x.reg)).Keys - {x.reg.peerId}
            <==> forall id :: !SomeWentSilently(AbsAll(hs), es, s, i, id)
  {
    SerialIsHistory(hs, es, oks);
    var x := hs[i].sessions[s];
    RoomOfAbs(hs[i], KeyOf(x.reg));
    assert AbsAll(hs)[i].clients[s] == ClientOf(hs[i], s);
    ClientViewIsTheRoomIff(AbsAll(hs), es, i, s, 0);
    assert x.out[0..] == x.out && x.out[..0] == [];
  }
}
