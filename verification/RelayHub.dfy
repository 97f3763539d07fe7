/** The relay server: rooms of sessions under two levels of mutex, as a transition system in which
    every critical section and every write to a socket is one step of one session's handler. Rooms and
    sessions are objects: they are known by their index and never reused, so a session that replaces
    another one under the same peer ID is a different session. */
module RelayHub {
  // ---------------------------------------------------------------- data

  datatype Register = Register(syncName: string, syncKey: string, peerId: string, role: string, direction: string)

  /** A PEER_JOIN message. */
  datatype Info = Info(peerId: string, role: string, direction: string)

  /** A DATA message from a client; `claimed` is the sender field it may carry. */
  datatype Data = Data(to: string, claimed: string, msgType: int, payload: seq<int>)

  datatype Msg =
    | RegisterOk
    | Join(info: Info)
    | Leave(peerId: string)
    | Deliver(from: string, msgType: int, payload: seq<int>)
    | Pong

  function RoomKey(syncName: string, syncKey: string): string {
    syncName + ['\0'] + syncKey
  }

  function InfoOf(reg: Register): Info {
    Info(reg.peerId, reg.role, reg.direction)
  }

  function KeyOf(reg: Register): string {
    RoomKey(reg.syncName, reg.syncKey)
  }

  /** Where a handler is. `announce` tells a cleanup that follows the read loop, and so will broadcast a
      leave, from one that follows a failed write during registration. */
  datatype Pc =
    | Looking
    | Inserting
    | Confirming
    | Greeting(next: nat)
    | Announcing
    | Reading
    | Routing(data: Data, target: nat)
    | Cleaning(announce: bool)
    | Removing(announce: bool, found: nat)
    | Unmapping(announce: bool, removed: bool)
    | Leaving
    | Finished

  /** `out` is every frame the server has written, or tried to write, to the session's socket. */
  datatype Session = Session(reg: Register, pc: Pc, room: nat, existing: seq<Info>, out: seq<Msg>, closed: bool)

  datatype Room = Room(key: string, members: map<string, nat>)

  /** One forwarded frame: who sent what, and which session received which message. */
  datatype Delivery = Delivery(from: nat, data: Data, to: nat, msg: Msg)

  datatype Hub = Hub(byKey: map<string, nat>, rooms: seq<Room>, sessions: seq<Session>, log: seq<Delivery>)

  const EMPTY_HUB := Hub(map[], [], [], [])

  // ---------------------------------------------------------------- the room operations

  /** The member table after `m` is inserted under `id`, whoever held the ID before. */
  function Inserted<M>(members: map<string, M>, id: string, m: M): map<string, M> {
    members[id := m]
  }

  /** `removeMemberIf`'s test: the ID is still mapped to this very session. */
  predicate Holds<M(==)>(members: map<string, M>, id: string, m: M) {
    id in members && members[id] == m
  }

  function Without<M>(members: map<string, M>, id: string): map<string, M> {
    members - {id}
  }

  // ---------------------------------------------------------------- steps

  datatype Step =
    | Connect(reg: Register)
    | Lookup(s: nat)
    | Insert(s: nat, order: seq<string>)
    | Confirm(s: nat, ok: bool)
    | Greet(s: nat, ok: bool)
    | Announce(s: nat)
    | ReadPing(s: nat)
    | ReadData(s: nat, data: Data)
    | Forward(s: nat, ok: bool)
    | ReadFails(s: nat)
    | FindRoom(s: nat)
    | RemoveIf(s: nat)
    | Unmap(s: nat)
    | Farewell(s: nat)

  /** The steps of a handler up to its read loop. */
  predicate IsEntry(step: Step) {
    step.Connect? || step.Lookup? || step.Insert? || step.Confirm? || step.Greet? || step.Announce?
  }

  predicate Registered(reg: Register) {
    reg.syncName != "" && reg.syncKey != "" && reg.peerId != ""
  }

  /** `order` is the order in which Go happens to range over the member map. */
  ghost predicate Enumerates(order: seq<string>, ids: set<string>) {
    && (forall id :: id in order <==> id in ids)
    && (forall i, j :: 0 <= i < j < |order| ==> order[i] != order[j])
  }

  predicate InRoom(h: Hub, s: nat) {
    && s < |h.sessions|
    && h.sessions[s].room < |h.rooms|
    && forall id :: id in h.rooms[h.sessions[s].room].members ==>
         h.rooms[h.sessions[s].room].members[id] < |h.sessions|
  }

  ghost predicate Enabled(h: Hub, step: Step) {
    match step
    case Connect(reg) => Registered(reg)
    case Lookup(s) => s < |h.sessions| && h.sessions[s].pc.Looking?
    case Insert(s, order) =>
      && InRoom(h, s) && h.sessions[s].pc.Inserting?
      && Enumerates(order, h.rooms[h.sessions[s].room].members.Keys - {h.sessions[s].reg.peerId})
    case Confirm(s, ok) => s < |h.sessions| && h.sessions[s].pc.Confirming? && (h.sessions[s].closed ==> !ok)
    case Greet(s, ok) =>
      && s < |h.sessions| && h.sessions[s].pc.Greeting? && h.sessions[s].pc.next < |h.sessions[s].existing|
      && (h.sessions[s].closed ==> !ok)
    case Announce(s) => InRoom(h, s) && h.sessions[s].pc.Announcing?
    case ReadPing(s) => s < |h.sessions| && h.sessions[s].pc.Reading?
    case ReadData(s, _) => s < |h.sessions| && h.sessions[s].pc.Reading?
    case Forward(s, ok) =>
      && s < |h.sessions| && h.sessions[s].pc.Routing? && h.sessions[s].pc.target < |h.rooms|
      && var members := h.rooms[h.sessions[s].pc.target].members;
         var to := h.sessions[s].pc.data.to;
         to in members ==> members[to] < |h.sessions| && (h.sessions[members[to]].closed ==> !ok)
    case ReadFails(s) => s < |h.sessions| && h.sessions[s].pc.Reading?
    case FindRoom(s) => s < |h.sessions| && h.sessions[s].pc.Cleaning?
    case RemoveIf(s) => s < |h.sessions| && h.sessions[s].pc.Removing? && h.sessions[s].pc.found < |h.rooms|
    case Unmap(s) => s < |h.sessions| && h.sessions[s].pc.Unmapping?
    case Farewell(s) => InRoom(h, s) && h.sessions[s].pc.Leaving?
  }

  function At(h: Hub, s: nat, pc: Pc): Hub
    requires s < |h.sessions|
  {
    h.(sessions := h.sessions[s := h.sessions[s].(pc := pc, closed := h.sessions[s].closed || pc.Finished?)])
  }

  function Say(x: Session, msg: Msg): Session {
    x.(out := x.out + [msg])
  }

  predicate IsMember(members: map<string, nat>, s: nat) {
    exists id :: id in members && members[id] == s
  }

  /** Writes `msg` to every session of a member table, except those whose peer ID is in `but`. */
  function Broadcast(sessions: seq<Session>, members: map<string, nat>, but: set<string>, msg: Msg): (r: seq<Session>)
    ensures |r| == |sessions|
  {
    seq(|sessions|, i requires 0 <= i < |sessions| =>
      if IsMember(members, i) && sessions[i].reg.peerId !in but then Say(sessions[i], msg) else sessions[i])
  }

  function AfterRemoval(announce: bool, removed: bool): Pc {
    if announce && removed then Leaving else Finished
  }

  function Next(h: Hub, step: Step): Hub
    requires Enabled(h, step)
  {
    match step
    case Connect(reg) => h.(sessions := h.sessions + [Session(reg, Looking, 0, [], [], false)])
    case Lookup(s) => LookupStep(h, s)
    case Insert(s, order) => InsertStep(h, s, order)
    case Confirm(s, ok) =>
      var h1 := h.(sessions := h.sessions[s := Say(h.sessions[s], RegisterOk)]);
      At(h1, s, if !ok then Cleaning(false) else GreetFrom(h.sessions[s], 0))
    case Greet(s, ok) =>
      var x := h.sessions[s];
      var h1 := h.(sessions := h.sessions[s := Say(x, Join(x.existing[x.pc.next]))]);
      At(h1, s, if !ok then Cleaning(false) else GreetFrom(x, x.pc.next + 1))
    case Announce(s) =>
      var x := h.sessions[s];
      var told := Broadcast(h.sessions, h.rooms[x.room].members, {x.reg.peerId}, Join(InfoOf(x.reg)));
      At(h.(sessions := told), s, Reading)
    case ReadPing(s) => h.(sessions := h.sessions[s := Say(h.sessions[s], Pong)])
    case ReadData(s, data) =>
      var k := KeyOf(h.sessions[s].reg);
      if k in h.byKey then At(h, s, Routing(data, h.byKey[k])) else h
    case Forward(s, ok) => ForwardStep(h, s, ok)
    case ReadFails(s) => At(h, s, Cleaning(true))
    case FindRoom(s) =>
      var k := KeyOf(h.sessions[s].reg);
      At(h, s, if k in h.byKey then Removing(h.sessions[s].pc.announce, h.byKey[k]) else Finished)
    case RemoveIf(s) => RemoveStep(h, s)
    case Unmap(s) =>
      var x := h.sessions[s];
      At(h.(byKey := h.byKey - {KeyOf(x.reg)}), s, AfterRemoval(x.pc.announce, x.pc.removed))
    case Farewell(s) =>
      var x := h.sessions[s];
      At(h.(sessions := Broadcast(h.sessions, h.rooms[x.room].members, {}, Leave(x.reg.peerId))), s, Finished)
  }

  function GreetFrom(x: Session, k: nat): Pc {
    if k < |x.existing| then Greeting(k) else Announcing
  }

  function LookupStep(h: Hub, s: nat): Hub
    requires Enabled(h, Lookup(s))
  {
    var k := KeyOf(h.sessions[s].reg);
    var h1 := if k in h.byKey then h
              else h.(byKey := h.byKey[k := |h.rooms|], rooms := h.rooms + [Room(k, map[])]);
    h1.(sessions := h1.sessions[s := h1.sessions[s].(pc := Inserting, room := h1.byKey[k])])
  }

  function Snapshot(sessions: seq<Session>, members: map<string, nat>, order: seq<string>): (r: seq<Info>)
    requires forall i :: 0 <= i < |order| ==> order[i] in members && members[order[i]] < |sessions|
  {
    seq(|order|, i requires 0 <= i < |order| => InfoOf(sessions[members[order[i]]].reg))
  }

  /** Closes the session that held the ID, takes the snapshot of the others, and inserts this one. */
  function InsertStep(h: Hub, s: nat, order: seq<string>): Hub
    requires Enabled(h, Insert(s, order))
  {
    var x := h.sessions[s];
    var id := x.reg.peerId;
    var members := h.rooms[x.room].members;
    assert forall i :: 0 <= i < |order| ==> order[i] in order;
    var snapshot := Snapshot(h.sessions, members, order);
    var h1 := if id in members then h.(sessions := h.sessions[members[id] := h.sessions[members[id]].(closed := true)])
              else h;
    h1.(rooms := h1.rooms[x.room := h1.rooms[x.room].(members := Inserted(members, id, s))],
        sessions := h1.sessions[s := h1.sessions[s].(pc := Confirming, existing := snapshot)])
  }

  function ForwardStep(h: Hub, s: nat, ok: bool): Hub
    requires Enabled(h, Forward(s, ok))
  {
    var x := h.sessions[s];
    var d := x.pc.data;
    var members := h.rooms[x.pc.target].members;
    if d.to !in members || h.sessions[members[d.to]].reg.peerId == x.reg.peerId then At(h, s, Reading)
    else
      var t := members[d.to];
      var msg := Deliver(x.reg.peerId, d.msgType, d.payload);
      var y := Say(h.sessions[t], msg);
      At(h.(sessions := h.sessions[t := y.(closed := y.closed || !ok)],
            log := h.log + [Delivery(s, d, t, msg)]), s, Reading)
  }

  function RemoveStep(h: Hub, s: nat): Hub
    requires Enabled(h, RemoveIf(s))
  {
    var x := h.sessions[s];
    var r := x.pc.found;
    var removed := Holds(h.rooms[r].members, x.reg.peerId, s);
    var members := if removed then Without(h.rooms[r].members, x.reg.peerId) else h.rooms[r].members;
    At(h.(rooms := h.rooms[r := h.rooms[r].(members := members)]), s,
       if members == map[] then Unmapping(x.pc.announce, removed) else AfterRemoval(x.pc.announce, removed))
  }

  /** The `i`-th transition of a run. */
  ghost predicate Linked(run: seq<Hub>, steps: seq<Step>, i: nat)
    requires |run| == |steps| + 1 && i < |steps|
  {
    Enabled(run[i], steps[i]) && run[i + 1] == Next(run[i], steps[i])
  }

  ghost predicate Run(run: seq<Hub>, steps: seq<Step>) {
    && |run| == |steps| + 1
    && run[0] == EMPTY_HUB
    && forall i :: 0 <= i < |steps| ==> Linked(run, steps, i)
  }

  // ---------------------------------------------------------------- the table invariant

  /** In a room and not yet past the lock section that takes it out. */
  predicate Present(pc: Pc) {
    !pc.Looking? && !pc.Inserting? && !pc.Unmapping? && !pc.Leaving? && !pc.Finished?
  }

  predicate Entered(pc: Pc) {
    !pc.Looking? && !pc.Inserting?
  }

  /** Past a removal that found the session still mapped. */
  predicate Gone(pc: Pc) {
    pc.Leaving? || (pc.Unmapping? && pc.removed)
  }

  predicate Mapped(h: Hub, s: nat)
    requires s < |h.sessions| && h.sessions[s].room < |h.rooms|
  {
    Holds(h.rooms[h.sessions[s].room].members, h.sessions[s].reg.peerId, s)
  }

  predicate RoomOk(h: Hub, r: nat)
    requires r < |h.rooms|
  {
    forall id :: id in h.rooms[r].members ==>
      var s := h.rooms[r].members[id];
      s < |h.sessions| && h.sessions[s].reg.peerId == id && h.sessions[s].room == r && Entered(h.sessions[s].pc) && !Gone(h.sessions[s].pc)
  }

  /** The rooms a handler has looked up are rooms of its own key. */
  predicate Aims(h: Hub, x: Session) {
    && (x.pc.Routing? ==> x.pc.target < |h.rooms| && h.rooms[x.pc.target].key == KeyOf(x.reg))
    && (x.pc.Removing? ==> x.pc.found < |h.rooms| && h.rooms[x.pc.found].key == KeyOf(x.reg))
  }

  /** A session points at a room of its own key, and while it is present and open the room maps its ID to it. */
  predicate SessionOk(h: Hub, s: nat)
    requires s < |h.sessions|
  {
    var x := h.sessions[s];
    && Registered(x.reg)
    && Aims(h, x)
    && (!x.pc.Looking? ==> x.room < |h.rooms| && h.rooms[x.room].key == KeyOf(x.reg))
    && (Present(x.pc) && !x.closed ==> Mapped(h, s))
  }

  predicate Tables(h: Hub) {
    && (forall k :: k in h.byKey ==> h.byKey[k] < |h.rooms| && h.rooms[h.byKey[k]].key == k)
    && (forall r :: 0 <= r < |h.rooms| ==> RoomOk(h, r))
    && (forall s :: 0 <= s < |h.sessions| ==> SessionOk(h, s))
  }

  /** Registrations, room keys and once-joined rooms never change, and objects are never reused. */
  predicate Extends(h: Hub, h': Hub) {
    && |h.sessions| <= |h'.sessions| && |h.rooms| <= |h'.rooms|
    && (forall r :: 0 <= r < |h.rooms| ==> h'.rooms[r].key == h.rooms[r].key)
    && (forall s :: 0 <= s < |h.sessions| ==>
          && h'.sessions[s].reg == h.sessions[s].reg
          && h.sessions[s].out <= h'.sessions[s].out
          && (h.sessions[s].closed ==> h'.sessions[s].closed)
          && (!h.sessions[s].pc.Looking? ==> h'.sessions[s].room == h.sessions[s].room))
  }

  /** Steps that touch no table: only session fields other than `reg`, and those only forwards. */
  predicate Quiet(h: Hub, h': Hub) {
    && h'.rooms == h.rooms && h'.byKey.Keys <= h.byKey.Keys
    && (forall k :: k in h'.byKey ==> h'.byKey[k] == h.byKey[k])
    && |h'.sessions| == |h.sessions|
    && forall s :: 0 <= s < |h.sessions| ==> Advances(h, h.sessions[s], h'.sessions[s])
  }

  predicate Advances(h: Hub, x: Session, y: Session) {
    && y.reg == x.reg && y.room == x.room && x.out <= y.out && (x.closed ==> y.closed)
    && (Entered(x.pc) <==> Entered(y.pc)) && (Present(y.pc) ==> Present(x.pc)) && (Gone(y.pc) ==> Gone(x.pc))
    && (x.pc.Looking? <==> y.pc.Looking?) && (y.pc == x.pc || Aims(h, y))
  }

  lemma QuietKeepsTables(h: Hub, h': Hub)
    requires Tables(h) && Quiet(h, h')
    ensures Tables(h') && Extends(h, h')
  {
    forall r | 0 <= r < |h'.rooms|
      ensures RoomOk(h', r)
    {
      assert RoomOk(h, r);
    }
    forall s | 0 <= s < |h'.sessions|
      ensures SessionOk(h', s)
    {
      assert SessionOk(h, s);
    }
  }

  lemma LookupSession(h: Hub, s: nat, t: nat)
    requires Tables(h) && Enabled(h, Lookup(s)) && t < |h.sessions|
    ensures |LookupStep(h, s).sessions| == |h.sessions| && SessionOk(LookupStep(h, s), t)
  {
    assert SessionOk(h, t);
  }

  lemma LookupRoom(h: Hub, s: nat, r: nat)
    requires Tables(h) && Enabled(h, Lookup(s)) && r < |LookupStep(h, s).rooms|
    ensures RoomOk(LookupStep(h, s), r)
  {
    if r < |h.rooms| {
      assert RoomOk(h, r);
    }
  }

  lemma LookupTables(h: Hub, s: nat)
    requires Tables(h) && Enabled(h, Lookup(s))
    ensures Tables(LookupStep(h, s)) && Extends(h, LookupStep(h, s))
  {
    var h' := LookupStep(h, s);
    forall r | 0 <= r < |h'.rooms|
      ensures RoomOk(h', r)
    {
      LookupRoom(h, s, r);
    }
    forall t | 0 <= t < |h'.sessions|
      ensures SessionOk(h', t)
    {
      LookupSession(h, s, t);
    }
  }

  lemma ConnectTables(h: Hub, reg: Register)
    requires Tables(h) && Registered(reg)
    ensures Tables(Next(h, Connect(reg))) && Extends(h, Next(h, Connect(reg)))
  {
    var h' := Next(h, Connect(reg));
    forall r | 0 <= r < |h'.rooms|
      ensures RoomOk(h', r)
    {
      assert RoomOk(h, r);
    }
    forall t | 0 <= t < |h'.sessions|
      ensures SessionOk(h', t)
    {
      if t < |h.sessions| {
        assert SessionOk(h, t);
      }
    }
  }

  /** What an insert does to a session that its room's table has under another ID. */
  lemma InsertSpares(h: Hub, s: nat, order: seq<string>, t: nat)
    requires Enabled(h, Insert(s, order)) && t < |h.sessions| && t != s
    ensures |InsertStep(h, s, order).sessions| == |h.sessions|
    ensures var x, y := h.sessions[t], InsertStep(h, s, order).sessions[t];
            y.reg == x.reg && y.pc == x.pc && y.room == x.room && (x.closed ==> y.closed)
  {
  }

  lemma InsertOwn(h: Hub, s: nat, order: seq<string>)
    requires Enabled(h, Insert(s, order))
    ensures |InsertStep(h, s, order).sessions| == |h.sessions|
    ensures var x, y := h.sessions[s], InsertStep(h, s, order).sessions[s];
            y.reg == x.reg && y.pc.Confirming? && y.room == x.room
  {
  }

  lemma InsertRoom(h: Hub, s: nat, order: seq<string>, r: nat)
    requires Enabled(h, Insert(s, order)) && r < |h.rooms| && RoomOk(h, r)
    ensures |InsertStep(h, s, order).rooms| == |h.rooms| && RoomOk(InsertStep(h, s, order), r)
  {
    var h' := InsertStep(h, s, order);
    InsertOwn(h, s, order);
    forall id | id in h'.rooms[r].members
      ensures var t := h'.rooms[r].members[id];
              t < |h'.sessions| && h'.sessions[t].reg.peerId == id && h'.sessions[t].room == r
              && Entered(h'.sessions[t].pc) && !Gone(h'.sessions[t].pc)
    {
      if h'.rooms[r].members[id] != s {
        InsertSpares(h, s, order, h'.rooms[r].members[id]);
      }
    }
  }

  lemma InsertSession(h: Hub, s: nat, order: seq<string>, t: nat)
    requires Enabled(h, Insert(s, order)) && RoomOk(h, h.sessions[s].room)
    requires t < |h.sessions| && SessionOk(h, s) && SessionOk(h, t)
    ensures |InsertStep(h, s, order).sessions| == |h.sessions| && SessionOk(InsertStep(h, s, order), t)
  {
  }

  lemma InsertExtends(h: Hub, s: nat, order: seq<string>)
    requires Enabled(h, Insert(s, order))
    ensures Extends(h, InsertStep(h, s, order)) && InsertStep(h, s, order).byKey == h.byKey
    ensures |InsertStep(h, s, order).rooms| == |h.rooms| && |InsertStep(h, s, order).sessions| == |h.sessions|
  {
  }

  lemma InsertTables(h: Hub, s: nat, order: seq<string>)
    requires Tables(h) && Enabled(h, Insert(s, order))
    ensures Tables(InsertStep(h, s, order)) && Extends(h, InsertStep(h, s, order))
  {
    var h' := InsertStep(h, s, order);
    InsertExtends(h, s, order);
    forall r | 0 <= r < |h'.rooms|
      ensures RoomOk(h', r)
    {
      InsertRoom(h, s, order, r);
    }
    forall t | 0 <= t < |h'.sessions|
      ensures SessionOk(h', t)
    {
      InsertSession(h, s, order, t);
    }
  }

  lemma RemoveRoom(h: Hub, s: nat, r: nat)
    requires Enabled(h, RemoveIf(s)) && SessionOk(h, s) && RoomOk(h, h.sessions[s].pc.found)
    requires r < |h.rooms| && RoomOk(h, r)
    ensures |RemoveStep(h, s).rooms| == |h.rooms| && RoomOk(RemoveStep(h, s), r)
  {
  }

  lemma RemoveSession(h: Hub, s: nat, t: nat)
    requires Enabled(h, RemoveIf(s)) && SessionOk(h, s) && RoomOk(h, h.sessions[s].pc.found)
    requires t < |h.sessions| && SessionOk(h, t)
    ensures |RemoveStep(h, s).sessions| == |h.sessions| && SessionOk(RemoveStep(h, s), t)
  {
  }

  lemma RemoveExtends(h: Hub, s: nat)
    requires Enabled(h, RemoveIf(s))
    ensures Extends(h, RemoveStep(h, s)) && RemoveStep(h, s).byKey == h.byKey
    ensures |RemoveStep(h, s).rooms| == |h.rooms| && |RemoveStep(h, s).sessions| == |h.sessions|
  {
  }

  lemma RemoveTables(h: Hub, s: nat)
    requires Tables(h) && Enabled(h, RemoveIf(s))
    ensures Tables(RemoveStep(h, s)) && Extends(h, RemoveStep(h, s))
  {
    var h' := RemoveStep(h, s);
    RemoveExtends(h, s);
    forall r | 0 <= r < |h'.rooms|
      ensures RoomOk(h', r)
    {
      RemoveRoom(h, s, r);
    }
    forall t | 0 <= t < |h'.sessions|
      ensures SessionOk(h', t)
    {
      RemoveSession(h, s, t);
    }
  }

  /** A step of `s` that leaves every other session alone, or only writes to it. */
  lemma QuietSteps(h: Hub, step: Step)
    requires Tables(h) && Enabled(h, step)
    requires !step.Connect? && !step.Lookup? && !step.Insert? && !step.RemoveIf?
    ensures Quiet(h, Next(h, step))
  {
    var h' := Next(h, step);
    forall t | 0 <= t < |h.sessions|
      ensures Advances(h, h.sessions[t], h'.sessions[t])
    {
      if step.Forward? {
        QuietForward(h, step.s, step.ok, t);
      } else if step.Confirm? || step.Greet? || step.Announce? {
        QuietEntry(h, step, t);
      } else if step.ReadPing? || step.ReadData? || step.ReadFails? {
        QuietReading(h, step, t);
      } else if step.Farewell? {
        QuietFarewell(h, step.s, t);
      } else {
        QuietEnding(h, step, t);
      }
    }
  }

  lemma QuietForward(h: Hub, s: nat, ok: bool, t: nat)
    requires Enabled(h, Forward(s, ok)) && t < |h.sessions|
    ensures |ForwardStep(h, s, ok).sessions| == |h.sessions|
    ensures Advances(h, h.sessions[t], ForwardStep(h, s, ok).sessions[t])
  {
    var x, y := h.sessions[t], ForwardStep(h, s, ok).sessions[t];
    assert y.reg == x.reg && y.room == x.room && x.out <= y.out;
    assert y.pc == x.pc || (t == s && y.pc == Reading);
  }

  lemma QuietEntry(h: Hub, step: Step, t: nat)
    requires Enabled(h, step) && t < |h.sessions|
    requires step.Confirm? || step.Greet? || step.Announce?
    ensures |Next(h, step).sessions| == |h.sessions| && Advances(h, h.sessions[t], Next(h, step).sessions[t])
  {
  }

  lemma QuietReading(h: Hub, step: Step, t: nat)
    requires Tables(h) && Enabled(h, step) && t < |h.sessions|
    requires step.ReadPing? || step.ReadData? || step.ReadFails?
    ensures |Next(h, step).sessions| == |h.sessions| && Advances(h, h.sessions[t], Next(h, step).sessions[t])
  {
  }

  lemma QuietFarewell(h: Hub, s: nat, t: nat)
    requires Enabled(h, Farewell(s)) && t < |h.sessions|
    ensures |Next(h, Farewell(s)).sessions| == |h.sessions| && Advances(h, h.sessions[t], Next(h, Farewell(s)).sessions[t])
  {
  }

  lemma QuietEnding(h: Hub, step: Step, t: nat)
    requires Tables(h) && Enabled(h, step) && t < |h.sessions|
    requires step.FindRoom? || step.Unmap?
    ensures |Next(h, step).sessions| == |h.sessions| && Advances(h, h.sessions[t], Next(h, step).sessions[t])
  {
  }

  lemma TablesStep(h: Hub, step: Step)
    requires Tables(h) && Enabled(h, step)
    ensures Tables(Next(h, step)) && Extends(h, Next(h, step))
  {
    match step
    case Connect(reg) => ConnectTables(h, reg);
    case Lookup(s) => LookupTables(h, s);
    case Insert(s, order) => InsertTables(h, s, order);
    case RemoveIf(s) => RemoveTables(h, s);
    case _ =>
      QuietSteps(h, step);
      QuietKeepsTables(h, Next(h, step));
  }

  lemma {:induction false} TablesAlways(run: seq<Hub>, steps: seq<Step>, i: nat)
    requires Run(run, steps) && i <= |steps|
    ensures Tables(run[i])
  {
    if i > 0 {
      TablesAlways(run, steps, i - 1);
      assert Linked(run, steps, i - 1);
      TablesStep(run[i - 1], steps[i - 1]);
    }
  }

  lemma Extend(run: seq<Hub>, steps: seq<Step>, step: Step) returns (run': seq<Hub>, steps': seq<Step>)
    requires Run(run, steps) && Enabled(run[|steps|], step)
    ensures Run(run', steps') && |steps'| == |steps| + 1 && run'[|steps'|] == Next(run[|steps|], step)
  {
    run', steps' := run + [Next(run[|steps|], step)], steps + [step];
    forall i | 0 <= i < |steps'|
      ensures Linked(run', steps', i)
    {
      assert i < |steps| ==> Linked(run, steps, i);
    }
  }
}
