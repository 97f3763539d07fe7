/** The lock-level relay and the relay with atomic handlers: a handler that runs from rest to rest with no other one
    in between does in `RelayHub` exactly what one event does in `RelayView`. */
module RelayAtomic {
  import opened RelayHub
  import opened RelayView

  // ---------------------------------------------------------------- sequences of steps

  /** The steps lead from `h` to `h'`. */
  ghost predicate Goes(h: Hub, steps: seq<Step>, h': Hub)
    decreases |steps|
  {
    if steps == [] then h' == h else Enabled(h, steps[0]) && Goes(Next(h, steps[0]), steps[1..], h')
  }

  lemma One(h: Hub, step: Step, h': Hub)
    requires Enabled(h, step)
    requires var n := Next(h, step);
             n.byKey == h'.byKey && n.rooms == h'.rooms && n.sessions == h'.sessions && n.log == h'.log
    ensures Goes(h, [step], h')
  {
    assert [step][1..] == [];
    assert Goes(Next(h, step), [step][1..], h');
  }

  lemma {:induction false} Then(h: Hub, a: seq<Step>, mid: Hub, b: seq<Step>, h': Hub)
    requires Goes(h, a, mid) && Goes(mid, b, h')
    ensures Goes(h, a + b, h')
    decreases |a|
  {
    if a == [] {
      assert a + b == b;
    } else {
      assert (a + b)[1..] == a[1..] + b;
      Then(Next(h, a[0]), a[1..], mid, b, h');
    }
  }

  lemma {:induction false} GoesTables(h: Hub, steps: seq<Step>, h': Hub)
    requires Goes(h, steps, h') && Tables(h)
    ensures Tables(h')
    decreases |steps|
  {
    if steps != [] {
      TablesStep(h, steps[0]);
      GoesTables(Next(h, steps[0]), steps[1..], h');
    }
  }

  function SetSession(h: Hub, s: nat, x: Session): Hub
    requires s < |h.sessions|
  {
    h.(sessions := h.sessions[s := x])
  }

  function MembersOf(h: Hub, k: string): map<string, nat> {
    if k in h.byKey && h.byKey[k] < |h.rooms| then h.rooms[h.byKey[k]].members else map[]
  }

  function RoomIndex(h: Hub, k: string): nat {
    if k in h.byKey then h.byKey[k] else |h.rooms|
  }

  // ---------------------------------------------------------------- entering

  ghost predicate CanInsert(h: Hub, reg: Register, order: seq<string>) {
    Tables(h) && Registered(reg) && Enumerates(order, MembersOf(h, KeyOf(reg)).Keys - {reg.peerId})
  }

  lemma MembersAreSessions(h: Hub, k: string)
    requires Tables(h)
    ensures forall id :: id in MembersOf(h, k) ==> MembersOf(h, k)[id] < |h.sessions|
  {
    if k in h.byKey {
      assert RoomOk(h, h.byKey[k]);
    }
  }

  lemma OrderIsMembers(h: Hub, reg: Register, order: seq<string>)
    requires CanInsert(h, reg, order)
    ensures forall i :: 0 <= i < |order| ==>
              order[i] in MembersOf(h, KeyOf(reg)) && MembersOf(h, KeyOf(reg))[order[i]] < |h.sessions|
  {
    MembersAreSessions(h, KeyOf(reg));
    assert forall i :: 0 <= i < |order| ==> order[i] in order;
  }

  /** After a registration has been accepted and has found its room. */
  function LookedUp(h: Hub, reg: Register): Hub {
    var k, r := KeyOf(reg), RoomIndex(h, KeyOf(reg));
    Hub(h.byKey[k := r], if k in h.byKey then h.rooms else h.rooms + [Room(k, map[])],
        h.sessions + [Session(reg, Inserting, r, [], [], false)], h.log)
  }

  lemma LooksUp(h: Hub, reg: Register)
    requires Tables(h) && Registered(reg)
    ensures Goes(h, [Connect(reg), Lookup(|h.sessions|)], LookedUp(h, reg))
  {
    var h1 := h.(sessions := h.sessions + [Session(reg, Looking, 0, [], [], false)]);
    One(h, Connect(reg), h1);
    One(h1, Lookup(|h.sessions|), LookedUp(h, reg));
    Then(h, [Connect(reg)], h1, [Lookup(|h.sessions|)], LookedUp(h, reg));
  }

  /** The sessions with the one that holds the ID closed. */
  function Shut(h: Hub, reg: Register): (ss: seq<Session>)
    requires Tables(h)
    ensures |ss| == |h.sessions|
  {
    MembersAreSessions(h, KeyOf(reg));
    var m := MembersOf(h, KeyOf(reg));
    if reg.peerId in m then h.sessions[m[reg.peerId] := h.sessions[m[reg.peerId]].(closed := true)] else h.sessions
  }

  function NewMembers(h: Hub, reg: Register): map<string, nat> {
    Inserted(MembersOf(h, KeyOf(reg)), reg.peerId, |h.sessions|)
  }

  function NewRooms(h: Hub, reg: Register, members: map<string, nat>): seq<Room> {
    var k := KeyOf(reg);
    if k in h.byKey && h.byKey[k] < |h.rooms| then h.rooms[h.byKey[k] := h.rooms[h.byKey[k]].(members := members)]
    else h.rooms + [Room(k, members)]
  }

  /** After the insert, with the newcomer's session in the state `x`. */
  function With(h: Hub, reg: Register, x: Session): Hub
    requires Tables(h)
  {
    Hub(h.byKey[KeyOf(reg) := RoomIndex(h, KeyOf(reg))], NewRooms(h, reg, NewMembers(h, reg)), Shut(h, reg) + [x], h.log)
  }

  ghost function Newcomer(h: Hub, reg: Register, order: seq<string>, pc: Pc, out: seq<Msg>): Session
    requires CanInsert(h, reg, order)
  {
    OrderIsMembers(h, reg, order);
    Session(reg, pc, RoomIndex(h, KeyOf(reg)), Snapshot(h.sessions, MembersOf(h, KeyOf(reg)), order), out, false)
  }

  lemma Inserts(h: Hub, reg: Register, order: seq<string>)
    requires CanInsert(h, reg, order)
    ensures Goes(LookedUp(h, reg), [Insert(|h.sessions|, order)], With(h, reg, Newcomer(h, reg, order, Confirming, [])))
  {
    var n, g := |h.sessions|, LookedUp(h, reg);
    var m := MembersOf(h, KeyOf(reg));
    MembersAreSessions(h, KeyOf(reg));
    OrderIsMembers(h, reg, order);
    assert g.sessions[n].room < |g.rooms| && g.rooms[g.sessions[n].room].members == m;
    assert InRoom(g, n);
    assert Snapshot(g.sessions, m, order) == Snapshot(h.sessions, m, order);
    One(g, Insert(n, order), With(h, reg, Newcomer(h, reg, order, Confirming, [])));
  }

  lemma Enters(h: Hub, reg: Register, order: seq<string>)
    requires CanInsert(h, reg, order)
    ensures Goes(h, [Connect(reg), Lookup(|h.sessions|)] + [Insert(|h.sessions|, order)],
                 With(h, reg, Newcomer(h, reg, order, Confirming, [])))
  {
    LooksUp(h, reg);
    Inserts(h, reg, order);
    Then(h, [Connect(reg), Lookup(|h.sessions|)], LookedUp(h, reg), [Insert(|h.sessions|, order)],
         With(h, reg, Newcomer(h, reg, order, Confirming, [])));
  }

  // ---------------------------------------------------------------- greeting and announcing

  function Joins(infos: seq<Info>): (ms: seq<Msg>)
    ensures |ms| == |infos|
  {
    seq(|infos|, i requires 0 <= i < |infos| => Join(infos[i]))
  }

  function Greets(s: nat, count: nat): (steps: seq<Step>)
    ensures |steps| == count
  {
    seq(count, _ => Greet(s, true))
  }

  lemma Confirms(h: Hub, s: nat, ok: bool)
    requires s < |h.sessions| && h.sessions[s].pc.Confirming? && !h.sessions[s].closed
    ensures var x := h.sessions[s];
            Goes(h, [Confirm(s, ok)],
                 SetSession(h, s, x.(pc := if ok then GreetFrom(x, 0) else Cleaning(false), out := x.out + [RegisterOk])))
  {
    var x := h.sessions[s];
    One(h, Confirm(s, ok),
        SetSession(h, s, x.(pc := if ok then GreetFrom(x, 0) else Cleaning(false), out := x.out + [RegisterOk])));
  }

  lemma GreetsOne(h: Hub, s: nat, j: nat, ok: bool)
    requires s < |h.sessions| && !h.sessions[s].closed
    requires j < |h.sessions[s].existing| && h.sessions[s].pc == Greeting(j)
    ensures var x := h.sessions[s];
            Goes(h, [Greet(s, ok)],
                 SetSession(h, s, x.(pc := if ok then GreetFrom(x, j + 1) else Cleaning(false),
                                     out := x.out + [Join(x.existing[j])])))
  {
    var x := h.sessions[s];
    One(h, Greet(s, ok), SetSession(h, s, x.(pc := if ok then GreetFrom(x, j + 1) else Cleaning(false),
                                             out := x.out + [Join(x.existing[j])])));
  }

  lemma JoinsFrom(infos: seq<Info>, j: nat, count: nat, out: seq<Msg>)
    requires 0 < count && j + count <= |infos|
    ensures (out + [Join(infos[j])]) + Joins(infos[j + 1..j + count]) == out + Joins(infos[j..j + count])
  {
    assert Joins(infos[j..j + count]) == [Join(infos[j])] + Joins(infos[j + 1..j + count]);
  }

  lemma {:induction false} GreetsMany(h: Hub, s: nat, j: nat, count: nat)
    requires s < |h.sessions| && !h.sessions[s].closed
    requires j + count <= |h.sessions[s].existing| && h.sessions[s].pc == GreetFrom(h.sessions[s], j)
    ensures var x := h.sessions[s];
            Goes(h, Greets(s, count),
                 SetSession(h, s, x.(pc := GreetFrom(x, j + count), out := x.out + Joins(x.existing[j..j + count]))))
    decreases count
  {
    var x := h.sessions[s];
    if count == 0 {
      assert x.out + Joins(x.existing[j..j]) == x.out;
      assert SetSession(h, s, x) == h;
    } else {
      GreetsOne(h, s, j, true);
      var y := x.(pc := GreetFrom(x, j + 1), out := x.out + [Join(x.existing[j])]);
      GreetsMany(SetSession(h, s, y), s, j + 1, count - 1);
      GreetsNext(h, s, j, count, y);
    }
  }

  lemma GreetsNext(h: Hub, s: nat, j: nat, count: nat, y: Session)
    requires s < |h.sessions| && 0 < count && j + count <= |h.sessions[s].existing|
    requires var x := h.sessions[s]; y == x.(pc := GreetFrom(x, j + 1), out := x.out + [Join(x.existing[j])])
    requires Goes(h, [Greet(s, true)], SetSession(h, s, y))
    requires Goes(SetSession(h, s, y), Greets(s, count - 1),
                  SetSession(SetSession(h, s, y), s, y.(pc := GreetFrom(y, j + count),
                                                       out := y.out + Joins(y.existing[j + 1..j + count]))))
    ensures var x := h.sessions[s];
            Goes(h, Greets(s, count),
                 SetSession(h, s, x.(pc := GreetFrom(x, j + count), out := x.out + Joins(x.existing[j..j + count]))))
  {
    var x := h.sessions[s];
    var z := x.(pc := GreetFrom(x, j + count), out := x.out + Joins(x.existing[j..j + count]));
    JoinsFrom(x.existing, j, count, x.out);
    assert SetSession(SetSession(h, s, y), s, z) == SetSession(h, s, z);
    Then(h, [Greet(s, true)], SetSession(h, s, y), Greets(s, count - 1), SetSession(h, s, z));
    assert Greets(s, count) == [Greet(s, true)] + Greets(s, count - 1);
  }

  function Entry(n: nat, reg: Register, order: seq<string>): seq<Step> {
    [Connect(reg), Lookup(n)] + [Insert(n, order)]
  }

  lemma SetNewcomer(h: Hub, reg: Register, x: Session, y: Session)
    requires Tables(h)
    ensures SetSession(With(h, reg, x), |h.sessions|, y) == With(h, reg, y)
  {
  }

  lemma EntersAndConfirms(h: Hub, reg: Register, order: seq<string>, ok: bool)
    requires CanInsert(h, reg, order)
    ensures var x := Newcomer(h, reg, order, Confirming, []);
            Goes(h, Entry(|h.sessions|, reg, order) + [Confirm(|h.sessions|, ok)],
                 With(h, reg, x.(pc := if ok then GreetFrom(x, 0) else Cleaning(false), out := [RegisterOk])))
  {
    var n := |h.sessions|;
    var x := Newcomer(h, reg, order, Confirming, []);
    var y := x.(pc := if ok then GreetFrom(x, 0) else Cleaning(false), out := [RegisterOk]);
    Enters(h, reg, order);
    Confirms(With(h, reg, x), n, ok);
    assert [] + [RegisterOk] == [RegisterOk];
    SetNewcomer(h, reg, x, y);
    Then(h, Entry(n, reg, order), With(h, reg, x), [Confirm(n, ok)], With(h, reg, y));
  }

  function Greeted(y: Session, count: nat): Session
    requires count <= |y.existing|
  {
    y.(pc := GreetFrom(y, count), out := y.out + Joins(y.existing[..count]))
  }

  lemma GreetsNewcomer(h: Hub, reg: Register, y: Session, count: nat)
    requires Tables(h) && !y.closed && count <= |y.existing| && y.pc == GreetFrom(y, 0)
    ensures Goes(With(h, reg, y), Greets(|h.sessions|, count), With(h, reg, Greeted(y, count)))
  {
    GreetsMany(With(h, reg, y), |h.sessions|, 0, count);
    assert y.existing[0..count] == y.existing[..count];
    SetNewcomer(h, reg, y, Greeted(y, count));
  }

  /** The newcomer with its RegisterOK written. */
  ghost function Confirmed(h: Hub, reg: Register, order: seq<string>): (y: Session)
    requires CanInsert(h, reg, order)
    ensures !y.closed && |y.existing| == |order| && y.pc == GreetFrom(y, 0)
  {
    var x := Newcomer(h, reg, order, Confirming, []);
    x.(pc := GreetFrom(x, 0), out := [RegisterOk])
  }

  /** A registration that has got through `count` of its greetings. */
  lemma Registers(h: Hub, reg: Register, order: seq<string>, count: nat)
    requires CanInsert(h, reg, order) && count <= |order|
    ensures var n := |h.sessions|;
            Goes(h, (Entry(n, reg, order) + [Confirm(n, true)]) + Greets(n, count),
                 With(h, reg, Greeted(Confirmed(h, reg, order), count)))
  {
    var n, y := |h.sessions|, Confirmed(h, reg, order);
    EntersAndConfirms(h, reg, order, true);
    GreetsNewcomer(h, reg, y, count);
    Then(h, Entry(n, reg, order) + [Confirm(n, true)], With(h, reg, y), Greets(n, count), With(h, reg, Greeted(y, count)));
  }

  /** After the broadcast: the others have been told, and the newcomer reads. */
  ghost function Arrived(h: Hub, reg: Register, order: seq<string>): Hub
    requires CanInsert(h, reg, order)
  {
    var x := Newcomer(h, reg, order, Confirming, []);
    var g := With(h, reg, x.(pc := Reading, out := [RegisterOk] + Joins(x.existing)));
    g.(sessions := Broadcast(g.sessions, NewMembers(h, reg), {reg.peerId}, Join(InfoOf(reg))))
  }

  lemma Announces(h: Hub, reg: Register, order: seq<string>, out: seq<Msg>)
    requires CanInsert(h, reg, order)
    ensures var x := Newcomer(h, reg, order, Announcing, out);
            var g := With(h, reg, x.(pc := Reading));
            Goes(With(h, reg, x), [Announce(|h.sessions|)],
                 g.(sessions := Broadcast(g.sessions, NewMembers(h, reg), {reg.peerId}, Join(InfoOf(reg)))))
  {
    var n, x := |h.sessions|, Newcomer(h, reg, order, Announcing, out);
    var f, g := With(h, reg, x), With(h, reg, x.(pc := Reading));
    MembersAreSessions(h, KeyOf(reg));
    assert f.rooms[x.room].members == NewMembers(h, reg);
    assert InRoom(f, n);
    var told := Broadcast(f.sessions, NewMembers(h, reg), {reg.peerId}, Join(InfoOf(reg)));
    var told' := Broadcast(g.sessions, NewMembers(h, reg), {reg.peerId}, Join(InfoOf(reg)));
    assert told[n] == x && told'[n] == x.(pc := Reading);
    assert told[n := x.(pc := Reading)] == told';
    One(f, Announce(n), g.(sessions := told'));
  }

  /** An uninterrupted registration. */
  lemma Arrives(h: Hub, reg: Register, order: seq<string>)
    requires CanInsert(h, reg, order)
    ensures Goes(h, ArriveSteps(|h.sessions|, reg, order), Arrived(h, reg, order))
  {
    var n, y := |h.sessions|, Confirmed(h, reg, order);
    Registers(h, reg, order, |order|);
    assert y.existing[..|order|] == y.existing;
    var out := [RegisterOk] + Joins(y.existing);
    assert Greeted(y, |order|) == Newcomer(h, reg, order, Announcing, out);
    Announces(h, reg, order, out);
    Then(h, (Entry(n, reg, order) + [Confirm(n, true)]) + Greets(n, |order|),
         With(h, reg, Greeted(y, |order|)), [Announce(n)], Arrived(h, reg, order));
  }

  function ArriveSteps(n: nat, reg: Register, order: seq<string>): seq<Step> {
    ((Entry(n, reg, order) + [Confirm(n, true)]) + Greets(n, |order|)) + [Announce(n)]
  }

  /** The newcomer whose `tried`-th greeting, or its RegisterOK, could not be written. */
  ghost function Failing(h: Hub, reg: Register, order: seq<string>, tried: nat): Session
    requires CanInsert(h, reg, order) && tried <= |order|
  {
    var x := Newcomer(h, reg, order, Confirming, []);
    x.(pc := Cleaning(false), out := [RegisterOk] + Joins(x.existing[..tried]))
  }

  function FailWrites(n: nat, reg: Register, order: seq<string>, tried: nat): seq<Step> {
    if tried == 0 then Entry(n, reg, order) + [Confirm(n, false)]
    else ((Entry(n, reg, order) + [Confirm(n, true)]) + Greets(n, tried - 1)) + [Greet(n, false)]
  }

  lemma GreetFails(h: Hub, reg: Register, y: Session, j: nat)
    requires Tables(h) && !y.closed && j < |y.existing|
    ensures Goes(With(h, reg, Greeted(y, j)), [Greet(|h.sessions|, false)],
                 With(h, reg, y.(pc := Cleaning(false), out := y.out + Joins(y.existing[..j + 1]))))
  {
    var x := Greeted(y, j);
    GreetsOne(With(h, reg, x), |h.sessions|, j, false);
    assert Joins(y.existing[..j + 1]) == Joins(y.existing[..j]) + [Join(y.existing[j])];
    var z := y.(pc := Cleaning(false), out := y.out + Joins(y.existing[..j + 1]));
    assert x.out + [Join(x.existing[j])] == z.out;
    SetNewcomer(h, reg, x, z);
  }

  lemma FailsToWrite(h: Hub, reg: Register, order: seq<string>, tried: nat)
    requires CanInsert(h, reg, order) && tried <= |order|
    ensures Goes(h, FailWrites(|h.sessions|, reg, order, tried), With(h, reg, Failing(h, reg, order, tried)))
  {
    var n, y := |h.sessions|, Confirmed(h, reg, order);
    if tried == 0 {
      EntersAndConfirms(h, reg, order, false);
      assert [RegisterOk] + Joins(y.existing[..0]) == [RegisterOk];
    } else {
      Registers(h, reg, order, tried - 1);
      GreetFails(h, reg, y, tried - 1);
      Then(h, (Entry(n, reg, order) + [Confirm(n, true)]) + Greets(n, tried - 1), With(h, reg, Greeted(y, tried - 1)),
           [Greet(n, false)], With(h, reg, Failing(h, reg, order, tried)));
    }
  }

  // ---------------------------------------------------------------- leaving

  ghost function CleanSteps(h: Hub, s: nat, announce: bool): seq<Step>
    requires s < |h.sessions|
  {
    var k, id := KeyOf(h.sessions[s].reg), h.sessions[s].reg.peerId;
    var removed := Holds(MembersOf(h, k), id, s);
    if k !in h.byKey then [FindRoom(s)]
    else
      [FindRoom(s)] + [RemoveIf(s)] + (if Left(h, s) == map[] then [Unmap(s)] else [])
      + (if announce && removed then [Farewell(s)] else [])
  }

  /** The members of the mapped room once `s` has tried to take itself out. */
  function Left(h: Hub, s: nat): map<string, nat>
    requires s < |h.sessions|
  {
    var m, id := MembersOf(h, KeyOf(h.sessions[s].reg)), h.sessions[s].reg.peerId;
    if Holds(m, id, s) then Without(m, id) else m
  }

  function Done(x: Session): Session {
    x.(pc := Finished, closed := true)
  }

  /** After an uninterrupted cleanup. */
  function Cleaned(h: Hub, s: nat, announce: bool): Hub
    requires s < |h.sessions|
  {
    var x := h.sessions[s];
    var k, id := KeyOf(x.reg), x.reg.peerId;
    if k !in h.byKey || h.byKey[k] >= |h.rooms| then SetSession(h, s, Done(x))
    else
      var told := if announce && Holds(MembersOf(h, k), id, s) then Broadcast(h.sessions, Left(h, s), {}, Leave(id))
                  else h.sessions;
      Hub(if Left(h, s) == map[] then h.byKey - {k} else h.byKey,
          h.rooms[h.byKey[k] := h.rooms[h.byKey[k]].(members := Left(h, s))], told[s := Done(x)], h.log)
  }

  /** After the second section of `removeMemberIf`, with the session in the state `x`. */
  function Taken(h: Hub, s: nat, byKey: map<string, nat>, x: Session): Hub
    requires s < |h.sessions| && KeyOf(h.sessions[s].reg) in h.byKey && h.byKey[KeyOf(h.sessions[s].reg)] < |h.rooms|
  {
    var r := h.byKey[KeyOf(h.sessions[s].reg)];
    Hub(byKey, h.rooms[r := h.rooms[r].(members := Left(h, s))], h.sessions[s := x], h.log)
  }

  function Proceed(x: Session, pc: Pc): Session {
    x.(pc := pc, closed := x.closed || pc.Finished?)
  }

  lemma TakesOut(h: Hub, s: nat, announce: bool)
    requires Tables(h) && s < |h.sessions| && h.sessions[s].pc == Cleaning(announce)
    requires KeyOf(h.sessions[s].reg) in h.byKey
    ensures var x := h.sessions[s];
            var removed := Holds(MembersOf(h, KeyOf(x.reg)), x.reg.peerId, s);
            var pc := if Left(h, s) == map[] then Unmapping(announce, removed) else AfterRemoval(announce, removed);
            Goes(h, [FindRoom(s)] + [RemoveIf(s)], Taken(h, s, h.byKey, Proceed(x, pc)))
  {
    var x := h.sessions[s];
    var r := h.byKey[KeyOf(x.reg)];
    var h1 := SetSession(h, s, x.(pc := Removing(announce, r)));
    One(h, FindRoom(s), h1);
    var removed := Holds(MembersOf(h, KeyOf(x.reg)), x.reg.peerId, s);
    var pc := if Left(h, s) == map[] then Unmapping(announce, removed) else AfterRemoval(announce, removed);
    One(h1, RemoveIf(s), Taken(h, s, h.byKey, Proceed(x, pc)));
    Then(h, [FindRoom(s)], h1, [RemoveIf(s)], Taken(h, s, h.byKey, Proceed(x, pc)));
  }

  /** The third section, if the room is empty. */
  lemma Unmaps(h: Hub, s: nat, announce: bool)
    requires Tables(h) && s < |h.sessions| && h.sessions[s].pc == Cleaning(announce)
    requires KeyOf(h.sessions[s].reg) in h.byKey
    ensures var x := h.sessions[s];
            var removed := Holds(MembersOf(h, KeyOf(x.reg)), x.reg.peerId, s);
            var empty := Left(h, s) == map[];
            Goes(h, [FindRoom(s)] + [RemoveIf(s)] + if empty then [Unmap(s)] else [],
                 Taken(h, s, if empty then h.byKey - {KeyOf(x.reg)} else h.byKey, Proceed(x, AfterRemoval(announce, removed))))
  {
    TakesOut(h, s, announce);
    var x := h.sessions[s];
    var removed := Holds(MembersOf(h, KeyOf(x.reg)), x.reg.peerId, s);
    var two := [FindRoom(s)] + [RemoveIf(s)];
    if Left(h, s) == map[] {
      var h1 := Taken(h, s, h.byKey, Proceed(x, Unmapping(announce, removed)));
      var h2 := Taken(h, s, h.byKey - {KeyOf(x.reg)}, Proceed(x, AfterRemoval(announce, removed)));
      One(h1, Unmap(s), h2);
      Then(h, two, h1, [Unmap(s)], h2);
    } else {
      assert two + [] == two;
    }
  }

  lemma SaysFarewell(h: Hub, s: nat, byKey: map<string, nat>)
    requires Tables(h) && s < |h.sessions| && h.sessions[s].pc == Cleaning(true) && !h.sessions[s].pc.Finished?
    requires KeyOf(h.sessions[s].reg) in h.byKey
    requires Holds(MembersOf(h, KeyOf(h.sessions[s].reg)), h.sessions[s].reg.peerId, s)
    requires byKey == if Left(h, s) == map[] then h.byKey - {KeyOf(h.sessions[s].reg)} else h.byKey
    ensures Goes(Taken(h, s, byKey, Proceed(h.sessions[s], Leaving)), [Farewell(s)], Cleaned(h, s, true))
  {
    var x := h.sessions[s];
    var r := h.byKey[KeyOf(x.reg)];
    assert RoomOk(h, r);
    assert x.room == r;
    var g := Taken(h, s, byKey, Proceed(x, Leaving));
    assert g.rooms[x.room].members == Left(h, s);
    assert InRoom(g, s);
    assert !IsMember(Left(h, s), s);
    var told := Broadcast(g.sessions, Left(h, s), {}, Leave(x.reg.peerId));
    assert told[s] == Proceed(x, Leaving);
    assert told[s := Done(x)] == Broadcast(h.sessions, Left(h, s), {}, Leave(x.reg.peerId))[s := Done(x)];
    One(g, Farewell(s), Cleaned(h, s, true));
  }

  lemma Cleans(h: Hub, s: nat, announce: bool)
    requires Tables(h) && s < |h.sessions| && h.sessions[s].pc == Cleaning(announce)
    ensures Goes(h, CleanSteps(h, s, announce), Cleaned(h, s, announce))
  {
    var x := h.sessions[s];
    var k := KeyOf(x.reg);
    if k !in h.byKey {
      One(h, FindRoom(s), Cleaned(h, s, announce));
    } else {
      var removed := Holds(MembersOf(h, k), x.reg.peerId, s);
      var byKey := if Left(h, s) == map[] then h.byKey - {k} else h.byKey;
      var steps := [FindRoom(s)] + [RemoveIf(s)] + if Left(h, s) == map[] then [Unmap(s)] else [];
      Unmaps(h, s, announce);
      if announce && removed {
        SaysFarewell(h, s, byKey);
        Then(h, steps, Taken(h, s, byKey, Proceed(x, Leaving)), [Farewell(s)], Cleaned(h, s, true));
      } else {
        assert Proceed(x, Finished) == Done(x);
        assert steps + [] == steps;
        assert Taken(h, s, byKey, Done(x)) == Cleaned(h, s, announce);
      }
    }
  }
}
