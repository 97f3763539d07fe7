/** What a relay client believes about its room. The client folds the frames it is sent through its
    handlers; here each registration, failing or not, and each departure at the server is one step. */
module RelayView {
  import opened RelayHub

  /** The peers a client has a virtual connection for, after one more frame. */
  function Handle(me: string, view: set<string>, msg: Msg): set<string> {
    match msg
    case Join(info) => if info.peerId == me then view else view + {info.peerId}
    case Leave(peerId) => view - {peerId}
    case Deliver(from, _, _) => if from != "" && from != me then view + {from} else view
    case RegisterOk => view
    case Pong => view
  }

  function Fold(me: string, view: set<string>, msgs: seq<Msg>): set<string> {
    if msgs == [] then view
    else
      var n := |msgs| - 1;
      Handle(me, Fold(me, view, msgs[..n]), msgs[n])
  }

  /** No data frame among `msgs` finds its sender unknown. */
  predicate Smooth(me: string, view: set<string>, msgs: seq<Msg>) {
    forall i :: 0 <= i < |msgs| && msgs[i].Deliver? ==> msgs[i].from in Fold(me, view, msgs[..i])
  }

  lemma FoldSnoc(me: string, view: set<string>, msgs: seq<Msg>, m: Msg)
    ensures Fold(me, view, msgs + [m]) == Handle(me, Fold(me, view, msgs), m)
    ensures Smooth(me, view, msgs + [m]) <==>
              Smooth(me, view, msgs) && (m.Deliver? ==> m.from in Fold(me, view, msgs))
  {
    assert (msgs + [m])[..|msgs|] == msgs;
    assert forall i :: 0 <= i < |msgs| ==> (msgs + [m])[..i] == msgs[..i] && (msgs + [m])[i] == msgs[i];
    assert (msgs + [m])[|msgs|] == m;
  }

  lemma {:induction false} FoldAppend(me: string, view: set<string>, a: seq<Msg>, b: seq<Msg>)
    ensures Fold(me, view, a + b) == Fold(me, Fold(me, view, a), b)
  {
    if b == [] {
      assert a + b == a;
    } else {
      var n := |b| - 1;
      assert (a + b)[..|a| + n] == a + b[..n] && (a + b)[|a| + n] == b[n];
      FoldAppend(me, view, a, b[..n]);
    }
  }

  // ---------------------------------------------------------------- the relay with atomic handlers

  datatype Status = Open | Replaced | Exited

  /** A session and every frame it has been sent; its client may have handled any part of them so far. */
  datatype Client = Client(reg: Register, status: Status, out: seq<Msg>)

  datatype Relay = Relay(rooms: map<string, map<string, nat>>, clients: seq<Client>)

  const EMPTY_RELAY := Relay(map[], [])

  /** `Fail` is a registration that takes its place in the room and then cannot write the RegisterOK, or the
      `tried`-th join of its snapshot. */
  datatype Event =
    | Arrive(reg: Register, order: seq<string>)
    | Fail(reg: Register, order: seq<string>, tried: nat)
    | Exit(s: nat)
    | Send(s: nat, data: Data)
    | Echo(s: nat)

  function RoomOf(r: Relay, k: string): map<string, nat> {
    if k in r.rooms then r.rooms[k] else map[]
  }

  /** A room is on the map as long as somebody is in it. */
  function SetRoom(rooms: map<string, map<string, nat>>, k: string, members: map<string, nat>): map<string, map<string, nat>> {
    if members == map[] then rooms - {k} else rooms[k := members]
  }

  ghost predicate CanEnter(r: Relay, reg: Register, order: seq<string>) {
    && Registered(reg)
    && Enumerates(order, RoomOf(r, KeyOf(reg)).Keys - {reg.peerId})
    && (forall id :: id in RoomOf(r, KeyOf(reg)) ==> RoomOf(r, KeyOf(reg))[id] < |r.clients|)
  }

  ghost predicate Possible(r: Relay, e: Event) {
    match e
    case Arrive(reg, order) => CanEnter(r, reg, order)
    case Fail(reg, order, tried) => CanEnter(r, reg, order) && tried <= |order|
    case Exit(s) => s < |r.clients| && !r.clients[s].status.Exited?
    case Send(s, data) => CanSend(r, s, data)
    case Echo(s) => s < |r.clients| && !r.clients[s].status.Exited?
  }

  function Post(c: Client, msg: Msg): Client {
    c.(out := c.out + [msg])
  }

  function PostAll(clients: seq<Client>, members: map<string, nat>, but: set<string>, msg: Msg): (p: seq<Client>)
    ensures |p| == |clients|
  {
    seq(|clients|, i requires 0 <= i < |clients| =>
      if IsMember(members, i) && clients[i].reg.peerId !in but then Post(clients[i], msg) else clients[i])
  }

  function Greetings(r: Relay, k: string, order: seq<string>): (ms: seq<Msg>)
    requires forall i :: 0 <= i < |order| ==> order[i] in RoomOf(r, k) && RoomOf(r, k)[order[i]] < |r.clients|
    ensures |ms| == |order|
  {
    seq(|order|, i requires 0 <= i < |order| => Join(InfoOf(r.clients[RoomOf(r, k)[order[i]]].reg)))
  }

  lemma OrderInRoom(r: Relay, reg: Register, order: seq<string>)
    requires CanEnter(r, reg, order)
    ensures forall i :: 0 <= i < |order| ==>
              order[i] in RoomOf(r, KeyOf(reg)) && RoomOf(r, KeyOf(reg))[order[i]] < |r.clients| && order[i] != reg.peerId
  {
    assert forall i :: 0 <= i < |order| ==> order[i] in order;
  }

  /** Whoever held the ID is no longer the one. */
  function Replace(r: Relay, reg: Register): seq<Client>
    requires forall id :: id in RoomOf(r, KeyOf(reg)) ==> RoomOf(r, KeyOf(reg))[id] < |r.clients|
  {
    var members := RoomOf(r, KeyOf(reg));
    if reg.peerId in members then r.clients[members[reg.peerId] := r.clients[members[reg.peerId]].(status := Replaced)]
    else r.clients
  }

  ghost function ArriveAfter(r: Relay, reg: Register, order: seq<string>): Relay
    requires CanEnter(r, reg, order)
  {
    OrderInRoom(r, reg, order);
    var k := KeyOf(reg);
    var members := Inserted(RoomOf(r, k), reg.peerId, |r.clients|);
    var newcomer := Client(reg, Open, [RegisterOk] + Greetings(r, k, order));
    Relay(r.rooms[k := members], PostAll(Replace(r, reg) + [newcomer], members, {reg.peerId}, Join(InfoOf(reg))))
  }

  ghost function FailAfter(r: Relay, reg: Register, order: seq<string>, tried: nat): Relay
    requires CanEnter(r, reg, order) && tried <= |order|
  {
    OrderInRoom(r, reg, order);
    var k := KeyOf(reg);
    Relay(SetRoom(r.rooms, k, Without(RoomOf(r, k), reg.peerId)),
          Replace(r, reg) + [Client(reg, Exited, [RegisterOk] + Greetings(r, k, order)[..tried])])
  }

  function ExitAfter(r: Relay, s: nat): Relay
    requires s < |r.clients|
  {
    var x := r.clients[s];
    var k, id := KeyOf(x.reg), x.reg.peerId;
    if Holds(RoomOf(r, k), id, s) then
      var members := Without(RoomOf(r, k), id);
      var told := PostAll(r.clients, members, {}, Leave(id));
      Relay(SetRoom(r.rooms, k, members), told[s := told[s].(status := Exited)])
    else r.(clients := r.clients[s := x.(status := Exited)])
  }

  predicate CanSend(r: Relay, s: nat, data: Data) {
    && s < |r.clients| && r.clients[s].status.Open?
    && var members := RoomOf(r, KeyOf(r.clients[s].reg));
       data.to in members ==> members[data.to] < |r.clients|
  }

  function SendAfter(r: Relay, s: nat, data: Data): Relay
    requires CanSend(r, s, data)
  {
    var x := r.clients[s];
    var members := RoomOf(r, KeyOf(x.reg));
    if data.to !in members || r.clients[members[data.to]].reg.peerId == x.reg.peerId then r
    else
      var t := members[data.to];
      r.(clients := r.clients[t := Post(r.clients[t], Deliver(x.reg.peerId, data.msgType, data.payload))])
  }

  function EchoAfter(r: Relay, s: nat): Relay
    requires s < |r.clients|
  {
    r.(clients := r.clients[s := Post(r.clients[s], Pong)])
  }

  ghost function After(r: Relay, e: Event): Relay
    requires Possible(r, e)
  {
    match e
    case Arrive(reg, order) => ArriveAfter(r, reg, order)
    case Fail(reg, order, tried) => FailAfter(r, reg, order, tried)
    case Exit(s) => ExitAfter(r, s)
    case Send(s, data) => SendAfter(r, s, data)
    case Echo(s) => EchoAfter(r, s)
  }

  ghost predicate Follows(rs: seq<Relay>, es: seq<Event>, i: nat)
    requires |rs| == |es| + 1 && i < |es|
  {
    Possible(rs[i], es[i]) && rs[i + 1] == After(rs[i], es[i])
  }

  ghost predicate History(rs: seq<Relay>, es: seq<Event>) {
    && |rs| == |es| + 1
    && rs[0] == EMPTY_RELAY
    && forall i :: 0 <= i < |es| ==> Follows(rs, es, i)
  }

  // ---------------------------------------------------------------- peers that go without a word

  /** The registration takes the place of a mapped session and fails: neither of the two will announce a leave. */
  predicate Silences(r: Relay, e: Event, k: string, id: string) {
    e.Fail? && KeyOf(e.reg) == k && e.reg.peerId == id && id in RoomOf(r, k)
  }

  predicate Revives(e: Event, k: string, id: string) {
    e.Arrive? && KeyOf(e.reg) == k && e.reg.peerId == id
  }

  /** Peers that went silently while the client of `s` was there, and have not come back. */
  ghost function Stale(rs: seq<Relay>, es: seq<Event>, s: nat, i: nat): set<string>
    requires |rs| == |es| + 1 && i <= |es|
  {
    if i == 0 || s >= |rs[i - 1].clients| then {}
    else StaleAfter(rs[i - 1], es[i - 1], KeyOf(rs[i - 1].clients[s].reg), Stale(rs, es, s, i - 1))
  }

  function StaleAfter(r: Relay, e: Event, k: string, stale: set<string>): set<string> {
    if e.Fail? && Silences(r, e, k, e.reg.peerId) then stale + {e.reg.peerId}
    else if e.Arrive? && KeyOf(e.reg) == k then stale - {e.reg.peerId}
    else stale
  }

  // ---------------------------------------------------------------- the invariant

  predicate RowOk(r: Relay, k: string, id: string)
    requires id in RoomOf(r, k)
  {
    var s := RoomOf(r, k)[id];
    id != "" && s < |r.clients| && r.clients[s].reg.peerId == id && KeyOf(r.clients[s].reg) == k
  }

  ghost predicate Sound(r: Relay) {
    && (forall k, id :: id in RoomOf(r, k) ==> RowOk(r, k, id))
    && (forall s :: 0 <= s < |r.clients| ==> (r.clients[s].status.Open? <==> InPlace(r, s)))
  }

  predicate InPlace(r: Relay, s: nat)
    requires s < |r.clients|
  {
    Holds(RoomOf(r, KeyOf(r.clients[s].reg)), r.clients[s].reg.peerId, s)
  }

  /** The frames lead the client to the other members of its room, and those that went silently. */
  predicate Faithful(r: Relay, s: nat, stale: set<string>)
    requires s < |r.clients|
  {
    var c := r.clients[s];
    var me, ids := c.reg.peerId, RoomOf(r, KeyOf(c.reg)).Keys;
    && Fold(me, {}, c.out) == ids + stale - {me}
    && stale !! ids && me !in stale
    && Smooth(me, {}, c.out)
  }

  /** Greetings build exactly the set of IDs they name. */
  lemma {:induction false} GreetingsFold(r: Relay, k: string, me: string, order: seq<string>)
    requires forall i :: 0 <= i < |order| ==> order[i] in RoomOf(r, k) && RoomOf(r, k)[order[i]] < |r.clients|
    requires forall i :: 0 <= i < |order| ==> order[i] != me && r.clients[RoomOf(r, k)[order[i]]].reg.peerId == order[i]
    ensures var hello := [RegisterOk] + Greetings(r, k, order);
            Fold(me, {}, hello) == (set id | id in order) && Smooth(me, {}, hello)
  {
    if order == [] {
      assert [RegisterOk] + Greetings(r, k, order) == [RegisterOk];
      assert Fold(me, {}, [RegisterOk]) == Handle(me, Fold(me, {}, []), RegisterOk);
    } else {
      var n := |order| - 1;
      GreetingsFold(r, k, me, order[..n]);
      var last := Join(InfoOf(r.clients[RoomOf(r, k)[order[n]]].reg));
      assert [RegisterOk] + Greetings(r, k, order) == ([RegisterOk] + Greetings(r, k, order[..n])) + [last];
      FoldSnoc(me, {}, [RegisterOk] + Greetings(r, k, order[..n]), last);
      assert order == order[..n] + [order[n]];
    }
  }

  /** One more frame for a client whose room changes in the way the frame says. */
  lemma FaithfulPost(r: Relay, r': Relay, s: nat, m: Msg, stale: set<string>, stale': set<string>)
    requires s < |r.clients| && Faithful(r, s, stale) && s < |r'.clients|
    requires r'.clients[s] == Post(r.clients[s], m)
    requires var me, k := r.clients[s].reg.peerId, KeyOf(r.clients[s].reg);
             && (m.Deliver? ==> m.from in RoomOf(r, k) && m.from != me)
             && RoomOf(r', k).Keys + stale' - {me} == Handle(me, RoomOf(r, k).Keys + stale - {me}, m)
             && stale' !! RoomOf(r', k).Keys && me !in stale'
    ensures Faithful(r', s, stale')
  {
    FoldSnoc(r.clients[s].reg.peerId, {}, r.clients[s].out, m);
  }

  // ---------------------------------------------------------------- changes of one room

  /** The room of one key changes at one ID, which nobody holds any more unless a newcomer does. */
  ghost predicate Changes(r: Relay, r': Relay, k: string, id: string) {
    var n, m, m' := |r.clients|, RoomOf(r, k), RoomOf(r', k);
    && n <= |r'.clients|
    && (forall k' :: k' != k ==> RoomOf(r', k') == RoomOf(r, k'))
    && m' - {id} == m - {id}
    && (id in m' ==> m'[id] == n < |r'.clients|)
    && (forall i :: 0 <= i < n ==>
          && r'.clients[i].reg == r.clients[i].reg
          && (r'.clients[i].status.Open? <==> r.clients[i].status.Open? && !Named(r.clients[i], k, id)))
    && (forall i :: n <= i < |r'.clients| ==>
          i == n && Named(r'.clients[i], k, id) && (r'.clients[i].status.Open? <==> id in m'))
    && (id in m' ==> id != "")
  }

  predicate Named(c: Client, k: string, id: string) {
    KeyOf(c.reg) == k && c.reg.peerId == id
  }

  lemma ChangedRow(r: Relay, r': Relay, k: string, id: string, k1: string, p: string)
    requires Sound(r) && Changes(r, r', k, id) && p in RoomOf(r', k1)
    ensures RowOk(r', k1, p)
  {
    if k1 == k && p == id {
    } else {
      if k1 == k {
        assert p in RoomOf(r', k) - {id};
        assert p in RoomOf(r, k) - {id};
      }
      assert p in RoomOf(r, k1) && RoomOf(r, k1)[p] == RoomOf(r', k1)[p];
      assert RowOk(r, k1, p);
    }
  }

  lemma ChangedStatus(r: Relay, r': Relay, k: string, id: string, s: nat)
    requires Sound(r) && Changes(r, r', k, id) && s < |r'.clients|
    ensures r'.clients[s].status.Open? <==> InPlace(r', s)
  {
    var n := |r.clients|;
    var k1, p := KeyOf(r'.clients[s].reg), r'.clients[s].reg.peerId;
    if k1 == k && p != id {
      assert p in RoomOf(r', k) <==> p in RoomOf(r', k) - {id};
      assert p in RoomOf(r, k) <==> p in RoomOf(r, k) - {id};
      assert p in RoomOf(r, k) ==> (RoomOf(r, k) - {id})[p] == RoomOf(r, k)[p];
    }
    if s < n {
      assert r.clients[s].status.Open? <==> InPlace(r, s);
    }
  }

  lemma ChangesSound(r: Relay, r': Relay, k: string, id: string)
    requires Sound(r) && Changes(r, r', k, id)
    ensures Sound(r')
  {
    forall k1, p | p in RoomOf(r', k1)
      ensures RowOk(r', k1, p)
    {
      ChangedRow(r, r', k, id, k1, p);
    }
    forall s | 0 <= s < |r'.clients|
      ensures r'.clients[s].status.Open? <==> InPlace(r', s)
    {
      ChangedStatus(r, r', k, id, s);
    }
  }

  // ---------------------------------------------------------------- the events

  lemma ReplaceKeeps(r: Relay, reg: Register, s: nat)
    requires Sound(r) && s < |r.clients| && Registered(reg)
    requires forall id :: id in RoomOf(r, KeyOf(reg)) ==> RoomOf(r, KeyOf(reg))[id] < |r.clients|
    ensures |Replace(r, reg)| == |r.clients|
    ensures Replace(r, reg)[s].reg == r.clients[s].reg && Replace(r, reg)[s].out == r.clients[s].out
    ensures Replace(r, reg)[s].status.Open? <==> r.clients[s].status.Open? && !Named(r.clients[s], KeyOf(reg), reg.peerId)
  {
    assert r.clients[s].status.Open? <==> InPlace(r, s);
    if reg.peerId in RoomOf(r, KeyOf(reg)) {
      assert RowOk(r, KeyOf(reg), reg.peerId);
    }
  }

  lemma ArriveChanges(r: Relay, reg: Register, order: seq<string>)
    requires Sound(r) && Possible(r, Arrive(reg, order))
    ensures Changes(r, After(r, Arrive(reg, order)), KeyOf(reg), reg.peerId)
  {
    var r' := After(r, Arrive(reg, order));
    forall i | 0 <= i < |r.clients|
      ensures r'.clients[i].reg == r.clients[i].reg
      ensures r'.clients[i].status.Open? <==> r.clients[i].status.Open? && !Named(r.clients[i], KeyOf(reg), reg.peerId)
    {
      ReplaceKeeps(r, reg, i);
    }
  }

  lemma ArriveSound(r: Relay, reg: Register, order: seq<string>)
    requires Sound(r) && Possible(r, Arrive(reg, order))
    ensures Sound(After(r, Arrive(reg, order)))
  {
    ArriveChanges(r, reg, order);
    ChangesSound(r, After(r, Arrive(reg, order)), KeyOf(reg), reg.peerId);
  }

  lemma ArriveNew(r: Relay, reg: Register, order: seq<string>)
    requires Sound(r) && Possible(r, Arrive(reg, order))
    ensures |After(r, Arrive(reg, order)).clients| == |r.clients| + 1
    ensures Faithful(After(r, Arrive(reg, order)), |r.clients|, {})
  {
    var k := KeyOf(reg);
    OrderInRoom(r, reg, order);
    forall i | 0 <= i < |order|
      ensures r.clients[RoomOf(r, k)[order[i]]].reg.peerId == order[i]
    {
      assert RowOk(r, k, order[i]);
    }
    GreetingsFold(r, k, reg.peerId, order);
    assert (set p | p in order) == RoomOf(r, k).Keys - {reg.peerId};
    var r' := After(r, Arrive(reg, order));
    assert r'.clients[|r.clients|] == Client(reg, Open, [RegisterOk] + Greetings(r, k, order));
    assert RoomOf(r', k).Keys + {} - {reg.peerId} == RoomOf(r, k).Keys - {reg.peerId};
  }

  /** Who is told of a newcomer: the members of its room under other IDs. */
  lemma ArriveTells(r: Relay, reg: Register, order: seq<string>, s: nat)
    requires Sound(r) && Possible(r, Arrive(reg, order)) && s < |r.clients|
    requires s < |After(r, Arrive(reg, order)).clients| && After(r, Arrive(reg, order)).clients[s].status.Open?
    ensures After(r, Arrive(reg, order)).clients[s] ==
            if KeyOf(r.clients[s].reg) == KeyOf(reg) then Post(r.clients[s], Join(InfoOf(reg))) else r.clients[s]
    ensures KeyOf(r.clients[s].reg) == KeyOf(reg) ==> r.clients[s].reg.peerId != reg.peerId
  {
    var r' := After(r, Arrive(reg, order));
    ArriveSound(r, reg, order);
    assert InPlace(r', s);
    ReplaceKeeps(r, reg, s);
    var members := RoomOf(r', KeyOf(reg));
    if KeyOf(r.clients[s].reg) == KeyOf(reg) {
      assert members[r.clients[s].reg.peerId] == s && IsMember(members, s);
    } else if id :| id in members && members[id] == s {
      assert RowOk(r', KeyOf(reg), id);
    }
  }

  lemma ArrivedKeys(r: Relay, reg: Register, order: seq<string>)
    requires CanEnter(r, reg, order)
    ensures RoomOf(ArriveAfter(r, reg, order), KeyOf(reg)).Keys == RoomOf(r, KeyOf(reg)).Keys + {reg.peerId}
    ensures forall k :: k != KeyOf(reg) ==> RoomOf(ArriveAfter(r, reg, order), k) == RoomOf(r, k)
  {
  }

  /** A client of another room is told nothing. */
  lemma FaithfulSame(r: Relay, r': Relay, s: nat, stale: set<string>)
    requires s < |r.clients| && s < |r'.clients| && r'.clients[s] == r.clients[s] && Faithful(r, s, stale)
    requires RoomOf(r', KeyOf(r.clients[s].reg)) == RoomOf(r, KeyOf(r.clients[s].reg))
    ensures Faithful(r', s, stale)
  {
  }

  lemma ArriveOld(r: Relay, reg: Register, order: seq<string>, s: nat, stale: set<string>)
    requires Sound(r) && CanEnter(r, reg, order) && s < |r.clients|
    requires s < |ArriveAfter(r, reg, order).clients| && ArriveAfter(r, reg, order).clients[s].status.Open?
    requires Faithful(r, s, stale)
    ensures Faithful(ArriveAfter(r, reg, order), s, StaleAfter(r, Arrive(reg, order), KeyOf(r.clients[s].reg), stale))
  {
    ArriveTells(r, reg, order, s);
    ArrivedKeys(r, reg, order);
    if KeyOf(r.clients[s].reg) == KeyOf(reg) {
      FaithfulPost(r, ArriveAfter(r, reg, order), s, Join(InfoOf(reg)), stale, stale - {reg.peerId});
    } else {
      FaithfulSame(r, ArriveAfter(r, reg, order), s, stale);
    }
  }

  lemma FailChanges(r: Relay, reg: Register, order: seq<string>, tried: nat)
    requires Sound(r) && Possible(r, Fail(reg, order, tried))
    ensures Changes(r, After(r, Fail(reg, order, tried)), KeyOf(reg), reg.peerId)
  {
    var r' := After(r, Fail(reg, order, tried));
    forall i | 0 <= i < |r.clients|
      ensures r'.clients[i].reg == r.clients[i].reg
      ensures r'.clients[i].status.Open? <==> r.clients[i].status.Open? && !Named(r.clients[i], KeyOf(reg), reg.peerId)
    {
      ReplaceKeeps(r, reg, i);
    }
  }

  lemma FailSound(r: Relay, reg: Register, order: seq<string>, tried: nat)
    requires Sound(r) && Possible(r, Fail(reg, order, tried))
    ensures Sound(After(r, Fail(reg, order, tried)))
  {
    FailChanges(r, reg, order, tried);
    ChangesSound(r, After(r, Fail(reg, order, tried)), KeyOf(reg), reg.peerId);
  }

  lemma FailTellsNobody(r: Relay, reg: Register, order: seq<string>, tried: nat, s: nat)
    requires Sound(r) && Possible(r, Fail(reg, order, tried)) && s < |r.clients|
    requires s < |After(r, Fail(reg, order, tried)).clients| && After(r, Fail(reg, order, tried)).clients[s].status.Open?
    ensures After(r, Fail(reg, order, tried)).clients[s] == r.clients[s]
    ensures KeyOf(r.clients[s].reg) == KeyOf(reg) ==> r.clients[s].reg.peerId != reg.peerId
    ensures RoomOf(After(r, Fail(reg, order, tried)), KeyOf(reg)).Keys == RoomOf(r, KeyOf(reg)).Keys - {reg.peerId}
  {
    ReplaceKeeps(r, reg, s);
    FailChanges(r, reg, order, tried);
  }

  /** Nobody is told of a registration that fails, nor of the session it has replaced. */
  lemma FailOld(r: Relay, reg: Register, order: seq<string>, tried: nat, s: nat, stale: set<string>)
    requires Sound(r) && Possible(r, Fail(reg, order, tried)) && s < |r.clients|
    requires s < |After(r, Fail(reg, order, tried)).clients| && After(r, Fail(reg, order, tried)).clients[s].status.Open?
    requires Faithful(r, s, stale)
    ensures Faithful(After(r, Fail(reg, order, tried)), s,
                     StaleAfter(r, Fail(reg, order, tried), KeyOf(r.clients[s].reg), stale))
  {
    FailTellsNobody(r, reg, order, tried, s);
    FailChanges(r, reg, order, tried);
    SilencedView(r, After(r, Fail(reg, order, tried)), Fail(reg, order, tried), s, stale);
  }

  lemma SilencedView(r: Relay, r': Relay, e: Event, s: nat, stale: set<string>)
    requires e.Fail? && s < |r.clients| && Faithful(r, s, stale) && Changes(r, r', KeyOf(e.reg), e.reg.peerId)
    requires r'.clients[s] == r.clients[s]
    requires KeyOf(r.clients[s].reg) == KeyOf(e.reg) ==> r.clients[s].reg.peerId != e.reg.peerId
    requires RoomOf(r', KeyOf(e.reg)).Keys == RoomOf(r, KeyOf(e.reg)).Keys - {e.reg.peerId}
    ensures Faithful(r', s, StaleAfter(r, e, KeyOf(r.clients[s].reg), stale))
  {
    var k := KeyOf(r.clients[s].reg);
    if k == KeyOf(e.reg) {
      assert RoomOf(r', k).Keys + StaleAfter(r, e, k, stale) == RoomOf(r, k).Keys + stale;
    }
  }

  lemma ExitChanges(r: Relay, s: nat)
    requires Sound(r) && Possible(r, Exit(s)) && InPlace(r, s)
    ensures Changes(r, After(r, Exit(s)), KeyOf(r.clients[s].reg), r.clients[s].reg.peerId)
  {
    var r' := After(r, Exit(s));
    forall i | 0 <= i < |r.clients|
      ensures r'.clients[i].status.Open? <==>
                r.clients[i].status.Open? && !Named(r.clients[i], KeyOf(r.clients[s].reg), r.clients[s].reg.peerId)
    {
      assert r.clients[i].status.Open? <==> InPlace(r, i);
    }
  }

  lemma ExitSound(r: Relay, s: nat)
    requires Sound(r) && Possible(r, Exit(s))
    ensures Sound(After(r, Exit(s)))
  {
    if InPlace(r, s) {
      ExitChanges(r, s);
      ChangesSound(r, After(r, Exit(s)), KeyOf(r.clients[s].reg), r.clients[s].reg.peerId);
    } else {
      StatusOnly(r, After(r, Exit(s)));
    }
  }

  /** The same rooms and sessions, with other frames sent. */
  lemma StatusOnly(r: Relay, r': Relay)
    requires Sound(r) && r'.rooms == r.rooms && |r'.clients| == |r.clients|
    requires forall i :: 0 <= i < |r.clients| ==>
               r'.clients[i].reg == r.clients[i].reg && (r'.clients[i].status.Open? <==> r.clients[i].status.Open?)
    ensures Sound(r')
  {
    forall k, id | id in RoomOf(r', k)
      ensures RowOk(r', k, id)
    {
      assert RowOk(r, k, id);
    }
    forall s | 0 <= s < |r'.clients|
      ensures r'.clients[s].status.Open? <==> InPlace(r', s)
    {
      assert r.clients[s].status.Open? <==> InPlace(r, s);
    }
  }

  /** Who is told of a departure: the members of the room that are left. */
  lemma ExitTells(r: Relay, s: nat, t: nat)
    requires Sound(r) && Possible(r, Exit(s)) && t < |r.clients|
    requires t < |After(r, Exit(s)).clients| && After(r, Exit(s)).clients[t].status.Open?
    ensures After(r, Exit(s)).clients[t] ==
            if InPlace(r, s) && KeyOf(r.clients[t].reg) == KeyOf(r.clients[s].reg)
            then Post(r.clients[t], Leave(r.clients[s].reg.peerId)) else r.clients[t]
    ensures KeyOf(r.clients[t].reg) == KeyOf(r.clients[s].reg) && InPlace(r, s) ==>
              r.clients[t].reg.peerId != r.clients[s].reg.peerId
  {
    var r' := After(r, Exit(s));
    ExitSound(r, s);
    assert InPlace(r', t) && t != s;
    if InPlace(r, s) {
      var members := RoomOf(r', KeyOf(r.clients[s].reg));
      if KeyOf(r.clients[t].reg) == KeyOf(r.clients[s].reg) {
        assert members[r.clients[t].reg.peerId] == t && IsMember(members, t);
      } else if id :| id in members && members[id] == t {
        assert RowOk(r', KeyOf(r.clients[s].reg), id);
      }
    }
  }

  lemma ExitFaithful(r: Relay, s: nat, t: nat, stale: set<string>)
    requires Sound(r) && Possible(r, Exit(s)) && t < |r.clients|
    requires t < |After(r, Exit(s)).clients| && After(r, Exit(s)).clients[t].status.Open? && Faithful(r, t, stale)
    ensures Faithful(After(r, Exit(s)), t, stale)
  {
    var r' := After(r, Exit(s));
    ExitTells(r, s, t);
    if InPlace(r, s) {
      ExitChanges(r, s);
      if KeyOf(r.clients[t].reg) == KeyOf(r.clients[s].reg) {
        assert RoomOf(r', KeyOf(r.clients[s].reg)).Keys == RoomOf(r, KeyOf(r.clients[s].reg)).Keys - {r.clients[s].reg.peerId};
        FaithfulPost(r, r', t, Leave(r.clients[s].reg.peerId), stale, stale);
      }
    }
  }

  lemma SendSound(r: Relay, s: nat, data: Data)
    requires Sound(r) && Possible(r, Send(s, data))
    ensures Sound(After(r, Send(s, data)))
  {
    StatusOnly(r, After(r, Send(s, data)));
  }

  lemma SendFaithful(r: Relay, s: nat, data: Data, t: nat, stale: set<string>)
    requires Sound(r) && Possible(r, Send(s, data)) && t < |r.clients| && Faithful(r, t, stale)
    ensures |After(r, Send(s, data)).clients| == |r.clients| && Faithful(After(r, Send(s, data)), t, stale)
  {
    var r' := After(r, Send(s, data));
    var from := r.clients[s].reg.peerId;
    if r'.clients[t] != r.clients[t] {
      assert InPlace(r, s) && RowOk(r, KeyOf(r.clients[s].reg), data.to);
      FaithfulPost(r, r', t, Deliver(from, data.msgType, data.payload), stale, stale);
    }
  }

  lemma EchoSound(r: Relay, s: nat)
    requires Sound(r) && Possible(r, Echo(s))
    ensures Sound(After(r, Echo(s)))
  {
    StatusOnly(r, After(r, Echo(s)));
  }

  lemma EchoFaithful(r: Relay, s: nat, t: nat, stale: set<string>)
    requires Sound(r) && Possible(r, Echo(s)) && t < |r.clients| && Faithful(r, t, stale)
    ensures |After(r, Echo(s)).clients| == |r.clients| && Faithful(After(r, Echo(s)), t, stale)
  {
    if t == s {
      FaithfulPost(r, After(r, Echo(s)), t, Pong, stale, stale);
    }
  }

  lemma SoundStep(r: Relay, e: Event)
    requires Sound(r) && Possible(r, e)
    ensures Sound(After(r, e))
  {
    match e
    case Arrive(reg, order) => ArriveSound(r, reg, order);
    case Fail(reg, order, tried) => FailSound(r, reg, order, tried);
    case Exit(s) => ExitSound(r, s);
    case Send(s, data) => SendSound(r, s, data);
    case Echo(s) => EchoSound(r, s);
  }

  /** No event reopens a session or changes its registration. */
  lemma WasOpen(r: Relay, e: Event, s: nat)
    requires Possible(r, e) && s < |r.clients|
    ensures |r.clients| <= |After(r, e).clients| && After(r, e).clients[s].reg == r.clients[s].reg
    ensures After(r, e).clients[s].status.Open? ==> r.clients[s].status.Open?
  {
  }

  lemma FaithfulStep(r: Relay, e: Event, s: nat, stale: set<string>)
    requires Sound(r) && Possible(r, e) && s < |r.clients| && Faithful(r, s, stale)
    requires s < |After(r, e).clients| && After(r, e).clients[s].status.Open?
    ensures Faithful(After(r, e), s, StaleAfter(r, e, KeyOf(r.clients[s].reg), stale))
  {
    match e
    case Arrive(reg, order) => ArriveOld(r, reg, order, s, stale);
    case Fail(reg, order, tried) => FailOld(r, reg, order, tried, s, stale);
    case Exit(t) => ExitFaithful(r, t, s, stale);
    case Send(t, data) => SendFaithful(r, t, data, s, stale);
    case Echo(t) => EchoFaithful(r, t, s, stale);
  }

  lemma {:induction false} SoundAlways(rs: seq<Relay>, es: seq<Event>, i: nat)
    requires History(rs, es) && i <= |es|
    ensures Sound(rs[i])
  {
    if i > 0 {
      SoundAlways(rs, es, i - 1);
      assert Follows(rs, es, i - 1);
      SoundStep(rs[i - 1], es[i - 1]);
    }
  }

  lemma OnlyArrivalOpens(r: Relay, e: Event, s: nat)
    requires Possible(r, e) && |r.clients| <= s < |After(r, e).clients| && After(r, e).clients[s].status.Open?
    ensures e.Arrive? && s == |r.clients|
  {
  }

  lemma {:induction false} FaithfulAlways(rs: seq<Relay>, es: seq<Event>, i: nat, s: nat)
    requires History(rs, es) && i <= |es| && s < |rs[i].clients| && rs[i].clients[s].status.Open?
    ensures Faithful(rs[i], s, Stale(rs, es, s, i))
  {
    if i > 0 {
      var r, e := rs[i - 1], es[i - 1];
      SoundAlways(rs, es, i - 1);
      assert Follows(rs, es, i - 1);
      if s < |r.clients| {
        WasOpen(r, e, s);
        FaithfulAlways(rs, es, i - 1, s);
        FaithfulStep(r, e, s, Stale(rs, es, s, i - 1));
      } else {
        OnlyArrivalOpens(r, e, s);
        ArriveNew(r, e.reg, e.order);
      }
    }
  }

  // ---------------------------------------------------------------- what a client believes

  /** At event `f`, with the client of `s` in the room, the peer went silently; it has not come back before `i`. */
  ghost predicate WentSilently(rs: seq<Relay>, es: seq<Event>, s: nat, i: nat, f: nat, id: string)
    requires |rs| == |es| + 1 && i <= |es| && f < i
  {
    && s < |rs[f].clients|
    && Silences(rs[f], es[f], KeyOf(rs[f].clients[s].reg), id)
    && forall j :: f < j < i ==> !Revives(es[j], KeyOf(rs[f].clients[s].reg), id)
  }

  ghost predicate SomeWentSilently(rs: seq<Relay>, es: seq<Event>, s: nat, i: nat, id: string)
    requires |rs| == |es| + 1 && i <= |es|
  {
    exists f :: 0 <= f < i && WentSilently(rs, es, s, i, f, id)
  }

  lemma {:induction false} StaleIff(rs: seq<Relay>, es: seq<Event>, s: nat, i: nat, id: string)
    requires History(rs, es) && i <= |es|
    ensures id in Stale(rs, es, s, i) <==> SomeWentSilently(rs, es, s, i, id)
  {
    if i > 0 {
      StaleIff(rs, es, s, i - 1, id);
      if id in Stale(rs, es, s, i) {
        StaleThenSilent(rs, es, s, i, id);
      }
      if f :| 0 <= f < i && WentSilently(rs, es, s, i, f, id) {
        SilentThenStale(rs, es, s, i, f, id);
      }
    }
  }

  lemma StaleThenSilent(rs: seq<Relay>, es: seq<Event>, s: nat, i: nat, id: string)
    requires History(rs, es) && 0 < i <= |es| && id in Stale(rs, es, s, i)
    requires id in Stale(rs, es, s, i - 1) ==> SomeWentSilently(rs, es, s, i - 1, id)
    ensures SomeWentSilently(rs, es, s, i, id)
  {
    var r, e := rs[i - 1], es[i - 1];
    if Silences(r, e, KeyOf(r.clients[s].reg), id) {
      assert WentSilently(rs, es, s, i, i - 1, id);
    } else {
      var f :| 0 <= f < i - 1 && WentSilently(rs, es, s, i - 1, f, id);
      SameRegs(rs, es, s, f, i - 1);
      assert WentSilently(rs, es, s, i, f, id);
    }
  }

  lemma SilentThenStale(rs: seq<Relay>, es: seq<Event>, s: nat, i: nat, f: nat, id: string)
    requires History(rs, es) && 0 < i <= |es| && f < i && WentSilently(rs, es, s, i, f, id)
    requires SomeWentSilently(rs, es, s, i - 1, id) ==> id in Stale(rs, es, s, i - 1)
    ensures id in Stale(rs, es, s, i)
  {
    if f < i - 1 {
      SameRegs(rs, es, s, f, i - 1);
      assert WentSilently(rs, es, s, i - 1, f, id);
      assert !Revives(es[i - 1], KeyOf(rs[f].clients[s].reg), id);
    }
  }

  lemma {:induction false} SameRegs(rs: seq<Relay>, es: seq<Event>, s: nat, f: nat, i: nat)
    requires History(rs, es) && f <= i <= |es| && s < |rs[f].clients|
    ensures s < |rs[i].clients| && rs[i].clients[s].reg == rs[f].clients[s].reg
    decreases i - f
  {
    if f < i {
      SameRegs(rs, es, s, f, i - 1);
      assert Follows(rs, es, i - 1);
      WasOpen(rs[i - 1], es[i - 1], s);
    }
  }

  /** In every reachable state, however many of its frames a live client has handled: what it believes now and the
      frames still on their way add up to the other members of the room and the peers that went silently, across
      replacements too; and no data frame on its way will meet an unknown sender. */
  lemma ClientViewAddsUp(rs: seq<Relay>, es: seq<Event>, i: nat, s: nat, handled: nat)
    requires History(rs, es) && i <= |es|
    requires s < |rs[i].clients| && rs[i].clients[s].status.Open? && handled <= |rs[i].clients[s].out|
    ensures var c := rs[i].clients[s];
            var me := c.reg.peerId;
            var view := Fold(me, {}, c.out[..handled]);
            && Fold(me, view, c.out[handled..]) == RoomOf(rs[i], KeyOf(c.reg)).Keys + Stale(rs, es, s, i) - {me}
            && Stale(rs, es, s, i) !! RoomOf(rs[i], KeyOf(c.reg)).Keys && me !in Stale(rs, es, s, i)
            && (handled < |c.out| && c.out[handled].Deliver? ==> c.out[handled].from in view)
  {
    FaithfulAlways(rs, es, i, s);
    var c := rs[i].clients[s];
    assert c.out == c.out[..handled] + c.out[handled..];
    FoldAppend(c.reg.peerId, {}, c.out[..handled], c.out[handled..]);
  }

  /** So it will believe in exactly the room unless, while it was there, a registration that found its ID mapped
      failed and no later one with that ID has gone through. */
  lemma ClientViewIsTheRoomIff(rs: seq<Relay>, es: seq<Event>, i: nat, s: nat, handled: nat)
    requires History(rs, es) && i <= |es|
    requires s < |rs[i].clients| && rs[i].clients[s].status.Open? && handled <= |rs[i].clients[s].out|
    ensures var c := rs[i].clients[s];
            var me := c.reg.peerId;
            Fold(me, Fold(me, {}, c.out[..handled]), c.out[handled..]) == RoomOf(rs[i], KeyOf(c.reg)).Keys - {me}
            <==> forall id :: !SomeWentSilently(rs, es, s, i, id)
  {
    ClientViewAddsUp(rs, es, i, s, handled);
    var stale := Stale(rs, es, s, i);
    forall id
      ensures id in stale <==> SomeWentSilently(rs, es, s, i, id)
    {
      StaleIff(rs, es, s, i, id);
    }
    var c := rs[i].clients[s];
    var ids, me := RoomOf(rs[i], KeyOf(c.reg)).Keys, c.reg.peerId;
    if stale == {} {
      assert ids + stale - {me} == ids - {me};
    } else {
      var id :| id in stale;
      assert id in ids + stale - {me} && id !in ids - {me};
    }
  }

  /** A data frame on top of all that has been sent meets an unknown sender exactly when the sender's ID is not in
      the room and did not go silently. Only a frame read from a session that is no longer mapped can do that. */
  lemma AttachesUnknownIff(rs: seq<Relay>, es: seq<Event>, i: nat, s: nat, m: Msg)
    requires History(rs, es) && i <= |es|
    requires s < |rs[i].clients| && rs[i].clients[s].status.Open?
    requires m.Deliver? && m.from != rs[i].clients[s].reg.peerId
    ensures var c := rs[i].clients[s];
            Smooth(c.reg.peerId, {}, c.out + [m]) <==>
              || m.from in RoomOf(rs[i], KeyOf(c.reg))
              || SomeWentSilently(rs, es, s, i, m.from)
  {
    FaithfulAlways(rs, es, i, s);
    StaleIff(rs, es, s, i, m.from);
    var c := rs[i].clients[s];
    FoldSnoc(c.reg.peerId, {}, c.out, m);
  }
}
