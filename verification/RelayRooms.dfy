/** When the sessions of one sync group find each other: as long as no room is taken off the map of rooms while
    somebody is in it or on the way into it. */
module RelayRooms {
  import opened RelayHub
  import opened RelaySafety

  /** Mapped in its room and not past its removal, or on the way into the room it has looked up. A session that has
      been replaced is in no room any more, wherever its handler is. */
  predicate InARoom(h: Hub, t: nat)
    requires t < |h.sessions|
  {
    var x := h.sessions[t];
    x.pc.Inserting? || (Present(x.pc) && x.room < |h.rooms| && Mapped(h, t))
  }

  predicate Placed(h: Hub, t: nat)
    requires t < |h.sessions|
  {
    InARoom(h, t) ==>
      KeyOf(h.sessions[t].reg) in h.byKey && h.byKey[KeyOf(h.sessions[t].reg)] == h.sessions[t].room
  }

  /** Every session in a room is in the room that its key leads to. */
  predicate OneRoom(h: Hub) {
    forall t :: 0 <= t < |h.sessions| ==> Placed(h, t)
  }

  /** Two sessions of one group in different rooms. */
  predicate IsSplit(h: Hub) {
    exists t, u :: 0 <= t < |h.sessions| && 0 <= u < |h.sessions| && Apart(h, t, u)
  }

  predicate Apart(h: Hub, t: nat, u: nat)
    requires t < |h.sessions| && u < |h.sessions|
  {
    && InARoom(h, t) && InARoom(h, u)
    && KeyOf(h.sessions[t].reg) == KeyOf(h.sessions[u].reg)
    && h.sessions[t].room != h.sessions[u].room
  }

  /** The room that `s` is about to take off the map has nobody in it or on the way into it. */
  predicate CleanUnmap(h: Hub, s: nat)
    requires s < |h.sessions|
  {
    var k := KeyOf(h.sessions[s].reg);
    k in h.byKey ==> forall t :: 0 <= t < |h.sessions| && InARoom(h, t) ==> h.sessions[t].room != h.byKey[k]
  }

  // ---------------------------------------------------------------- one step

  lemma MoverKeepsItsAtEntry(h: Hub, step: Step)
    requires IsEntry(step)
    requires Enabled(h, step) && !step.Connect? && !step.Lookup?
    ensures step.s < |Next(h, step).sessions|
    ensures var x, y := h.sessions[step.s], Next(h, step).sessions[step.s];
            && y.reg == x.reg && y.room == x.room && !y.pc.Inserting?
            && (Present(y.pc) ==> Present(x.pc) || x.pc.Inserting?)
  {
  }

  lemma MoverKeepsItsLater(h: Hub, step: Step)
    requires !IsEntry(step)
    requires Enabled(h, step) && !step.Connect? && !step.Lookup?
    ensures step.s < |Next(h, step).sessions|
    ensures var x, y := h.sessions[step.s], Next(h, step).sessions[step.s];
            && y.reg == x.reg && y.room == x.room && !y.pc.Inserting?
            && (Present(y.pc) ==> Present(x.pc) || x.pc.Inserting?)
  {
  }

  lemma MoverKeepsIts(h: Hub, step: Step)
    requires Enabled(h, step) && !step.Connect? && !step.Lookup?
    ensures step.s < |Next(h, step).sessions|
    ensures var x, y := h.sessions[step.s], Next(h, step).sessions[step.s];
            && y.reg == x.reg && y.room == x.room && !y.pc.Inserting?
            && (Present(y.pc) ==> Present(x.pc) || x.pc.Inserting?)
  {
    if IsEntry(step) {
      MoverKeepsItsAtEntry(h, step);
    } else {
      MoverKeepsItsLater(h, step);
    }
  }

  lemma LooksUpItsRoom(h: Hub, s: nat)
    requires Enabled(h, Lookup(s))
    ensures s < |Next(h, Lookup(s)).sessions| && Next(h, Lookup(s)).sessions[s].reg == h.sessions[s].reg
    ensures Placed(Next(h, Lookup(s)), s)
  {
  }

  /** Only an insert maps a session, and it maps the one that is on its way in. */
  lemma WasMapped(h: Hub, step: Step, t: nat)
    requires Enabled(h, step) && t < |h.sessions| && h.sessions[t].room < |h.rooms| && !h.sessions[t].pc.Inserting?
    requires h.sessions[t].room < |Next(h, step).rooms|
    requires Holds(Next(h, step).rooms[h.sessions[t].room].members, h.sessions[t].reg.peerId, t)
    ensures Mapped(h, t)
  {
    TableChange(h, step, h.sessions[t].room);
  }

  /** Only a lookup brings a handler into a room, and into the mapped one. */
  lemma ComesIn(h: Hub, step: Step, t: nat)
    requires Tables(h) && Enabled(h, step) && t < |Next(h, step).sessions| && InARoom(Next(h, step), t)
    ensures t < |h.sessions|
    ensures Next(h, step).sessions[t].reg == h.sessions[t].reg
    ensures || (InARoom(h, t) && Next(h, step).sessions[t].room == h.sessions[t].room)
            || (step == Lookup(t) && Placed(Next(h, step), t))
  {
    if step == Lookup(t) {
      LooksUpItsRoom(h, t);
    } else {
      if step.Connect? {
        assert t < |h.sessions|;
        OnlyOneMoves(h, step, t);
      } else {
        SameCount(h, step);
        if step.s == t {
          MoverKeepsIts(h, step);
        } else {
          OnlyOneMoves(h, step, t);
        }
      }
      if !h.sessions[t].pc.Inserting? {
        assert SessionOk(h, t);
        WasMapped(h, step, t);
      }
    }
  }

  lemma SameCount(h: Hub, step: Step)
    requires Enabled(h, step) && !step.Connect?
    ensures |Next(h, step).sessions| == |h.sessions|
  {
  }

  lemma MapChange(h: Hub, step: Step)
    requires Enabled(h, step)
    ensures if step.Unmap? then Next(h, step).byKey == h.byKey - {KeyOf(h.sessions[step.s].reg)}
            else h.byKey.Keys <= Next(h, step).byKey.Keys && forall k :: k in h.byKey ==> Next(h, step).byKey[k] == h.byKey[k]
  {
  }

  lemma PlacedStep(h: Hub, step: Step, t: nat)
    requires Tables(h) && OneRoom(h) && Enabled(h, step) && t < |Next(h, step).sessions|
    requires step.Unmap? ==> CleanUnmap(h, step.s)
    ensures Placed(Next(h, step), t)
  {
    if InARoom(Next(h, step), t) {
      ComesIn(h, step, t);
      MapChange(h, step);
      assert Placed(h, t);
    }
  }

  lemma OthersStay(h: Hub, s: nat, t: nat)
    requires Enabled(h, Unmap(s)) && t < |h.sessions| && InARoom(h, t)
    ensures t < |Next(h, Unmap(s)).sessions| && Next(h, Unmap(s)).sessions[t] == h.sessions[t]
    ensures InARoom(Next(h, Unmap(s)), t)
  {
  }

  /** Somebody is left in a room whose key leads nowhere. */
  lemma LeftBehind(h: Hub, s: nat, t: nat)
    requires Tables(h) && Enabled(h, Unmap(s)) && t < |h.sessions| && InARoom(h, t)
    requires KeyOf(h.sessions[s].reg) in h.byKey && h.sessions[t].room == h.byKey[KeyOf(h.sessions[s].reg)]
    ensures t < |Next(h, Unmap(s)).sessions| && !Placed(Next(h, Unmap(s)), t)
  {
    assert SessionOk(h, t);
    OthersStay(h, s, t);
    MapChange(h, Unmap(s));
  }

  /** One step keeps every group in one room unless it takes an occupied room off the map. */
  lemma OneRoomStepIff(h: Hub, step: Step)
    requires Tables(h) && OneRoom(h) && Enabled(h, step)
    ensures OneRoom(Next(h, step)) <==> (step.Unmap? ==> CleanUnmap(h, step.s))
  {
    var h' := Next(h, step);
    if step.Unmap? ==> CleanUnmap(h, step.s) {
      forall t | 0 <= t < |h'.sessions|
        ensures Placed(h', t)
      {
        PlacedStep(h, step, t);
      }
    } else {
      var k := KeyOf(h.sessions[step.s].reg);
      var t :| 0 <= t < |h.sessions| && InARoom(h, t) && h.sessions[t].room == h.byKey[k];
      LeftBehind(h, step.s, t);
    }
  }

  // ---------------------------------------------------------------- whole runs

  /** No step of the run takes an occupied room off the map. */
  ghost predicate CleanRun(run: seq<Hub>, steps: seq<Step>)
    requires Run(run, steps)
  {
    forall i :: 0 <= i < |steps| ==> CleanAt(run, steps, i)
  }

  ghost predicate CleanAt(run: seq<Hub>, steps: seq<Step>, i: nat)
    requires Run(run, steps) && i < |steps|
  {
    assert Linked(run, steps, i);
    steps[i].Unmap? ==> CleanUnmap(run[i], steps[i].s)
  }

  lemma {:induction false} CleanKeepsOneRoom(run: seq<Hub>, steps: seq<Step>, i: nat)
    requires Run(run, steps) && i <= |steps|
    requires forall j :: 0 <= j < i ==> CleanAt(run, steps, j)
    ensures OneRoom(run[i])
  {
    if i > 0 {
      CleanKeepsOneRoom(run, steps, i - 1);
      TablesAlways(run, steps, i - 1);
      assert Linked(run, steps, i - 1) && CleanAt(run, steps, i - 1);
      OneRoomStepIff(run[i - 1], steps[i - 1]);
    }
  }

  /** In a run every group stays together in the room its key leads to, at every moment, exactly when each room that
      is taken off the map is one that nobody is in or on the way into. */
  lemma GroupsStayTogetherIff(run: seq<Hub>, steps: seq<Step>)
    requires Run(run, steps)
    ensures (forall i :: 0 <= i <= |steps| ==> OneRoom(run[i])) <==> CleanRun(run, steps)
  {
    if CleanRun(run, steps) {
      forall i | 0 <= i <= |steps|
        ensures OneRoom(run[i])
      {
        CleanKeepsOneRoom(run, steps, i);
      }
    }
    if forall i :: 0 <= i <= |steps| ==> OneRoom(run[i]) {
      forall i | 0 <= i < |steps|
        ensures CleanAt(run, steps, i)
      {
        TablesAlways(run, steps, i);
        assert Linked(run, steps, i) && OneRoom(run[i]) && OneRoom(run[i + 1]);
        OneRoomStepIff(run[i], steps[i]);
      }
    }
  }

  lemma TogetherIsNotSplit(h: Hub)
    requires OneRoom(h)
    ensures !IsSplit(h)
  {
    forall t, u | 0 <= t < |h.sessions| && 0 <= u < |h.sessions|
      ensures !Apart(h, t, u)
    {
      assert Placed(h, t) && Placed(h, u);
    }
  }

  /** In a run that never takes an occupied room off the map, any two settled sessions of one group with different
      peer IDs have each been told of the other. */
  lemma GroupMeets(run: seq<Hub>, steps: seq<Step>, i: nat, a: nat, b: nat)
    requires Run(run, steps) && CleanRun(run, steps) && i <= |steps|
    requires a < |run[i].sessions| && run[i].sessions[a].room < |run[i].rooms| && Mapped(run[i], a)
    requires b < |run[i].sessions| && run[i].sessions[b].room < |run[i].rooms| && Mapped(run[i], b)
    requires Present(run[i].sessions[a].pc) && PastAnnounce(run[i].sessions[a].pc)
    requires Present(run[i].sessions[b].pc) && PastAnnounce(run[i].sessions[b].pc)
    requires KeyOf(run[i].sessions[a].reg) == KeyOf(run[i].sessions[b].reg)
    requires run[i].sessions[a].reg.peerId != run[i].sessions[b].reg.peerId
    ensures var x, y := run[i].sessions[a], run[i].sessions[b];
            && Join(Info(y.reg.peerId, y.reg.role, y.reg.direction)) in x.out
            && Join(Info(x.reg.peerId, x.reg.role, x.reg.direction)) in y.out
  {
    CleanKeepsOneRoom(run, steps, i);
    assert Placed(run[i], a) && Placed(run[i], b);
    MutualDiscovery(run, steps, i, a, b);
  }

  lemma NewcomerLooksUp(h: Hub, reg: Register) returns (h': Hub)
    requires Registered(reg)
    ensures var h1 := Next(h, Connect(reg)); Enabled(h1, Lookup(|h.sessions|)) && h' == Next(h1, Lookup(|h.sessions|))
    ensures |h'.sessions| == |h.sessions| + 1 && h'.sessions[..|h.sessions|] == h.sessions
    ensures var x := h'.sessions[|h.sessions|];
            && x.reg == reg && x.pc.Inserting?
            && x.room == if KeyOf(reg) in h.byKey then h.byKey[KeyOf(reg)] else |h.rooms|
  {
    h' := Next(Next(h, Connect(reg)), Lookup(|h.sessions|));
  }

  /** The very unmap decides: one more connection of that group, which looks its room up, is in another room than
      a session that is already there exactly when the room was occupied as it was taken off the map. */
  lemma UnmapSplitsIff(h: Hub, s: nat) returns (h': Hub)
    requires Tables(h) && OneRoom(h) && Enabled(h, Unmap(s))
    ensures var reg, h1 := h.sessions[s].reg, Next(h, Unmap(s));
            && Enabled(h1, Connect(reg)) && Enabled(Next(h1, Connect(reg)), Lookup(|h1.sessions|))
            && h' == Next(Next(h1, Connect(reg)), Lookup(|h1.sessions|))
    ensures IsSplit(h') <==> !CleanUnmap(h, s)
  {
    var reg, h1 := h.sessions[s].reg, Next(h, Unmap(s));
    assert SessionOk(h, s);
    h' := NewcomerLooksUp(h1, reg);
    if CleanUnmap(h, s) {
      UnmapThenTogether(h, s, h');
    } else {
      var t :| 0 <= t < |h.sessions| && InARoom(h, t) && h.sessions[t].room == h.byKey[KeyOf(reg)];
      OthersStay(h, s, t);
      assert SessionOk(h, t);
      MapChange(h, Unmap(s));
      assert h'.sessions[t] == h'.sessions[..|h1.sessions|][t] == h.sessions[t];
      assert |h1.rooms| == |h.rooms|;
      assert Apart(h', t, |h1.sessions|);
    }
  }

  lemma UnmapThenTogether(h: Hub, s: nat, h': Hub)
    requires Tables(h) && OneRoom(h) && Enabled(h, Unmap(s)) && CleanUnmap(h, s)
    requires Registered(h.sessions[s].reg)
    requires var h1 := Next(Next(h, Unmap(s)), Connect(h.sessions[s].reg));
             Enabled(h1, Lookup(|h.sessions|)) && h' == Next(h1, Lookup(|h.sessions|))
    ensures !IsSplit(h')
  {
    var reg, h1 := h.sessions[s].reg, Next(h, Unmap(s));
    var h2 := Next(h1, Connect(reg));
    TablesStep(h, Unmap(s));
    OneRoomStepIff(h, Unmap(s));
    TablesStep(h1, Connect(reg));
    OneRoomStepIff(h1, Connect(reg));
    OneRoomStepIff(h2, Lookup(|h.sessions|));
    TogetherIsNotSplit(h');
  }
}
