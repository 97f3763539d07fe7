/** How the frames a client has been sent come to disagree with its room, one lock section at a time. */
module RelayDrift {
  import opened RelayHub
  import opened RelaySafety
  import RelayView

  /** The frames sent to `t` say of the peer `q` what the room's table says. */
  predicate Right(h: Hub, t: nat, q: string)
    requires t < |h.sessions| && h.sessions[t].room < |h.rooms|
  {
    var x := h.sessions[t];
    q in RelayView.Fold(x.reg.peerId, {}, x.out) <==> q in h.rooms[x.room].members
  }

  /** What a step writes to a session that is mapped in its room. */
  ghost function Written(h: Hub, step: Step, t: nat): seq<Msg>
    requires Enabled(h, step) && t < |h.sessions|
  {
    match step
    case Confirm(s, _) => if s == t then [RegisterOk] else []
    case Greet(s, _) => if s == t then [Join(h.sessions[s].existing[h.sessions[s].pc.next])] else []
    case Announce(s) =>
      if h.sessions[s].room == h.sessions[t].room && h.sessions[s].reg.peerId != h.sessions[t].reg.peerId
      then [Join(InfoOf(h.sessions[s].reg))] else []
    case ReadPing(s) => if s == t then [Pong] else []
    case Forward(s, _) =>
      var d := h.sessions[s].pc.data;
      if Reaches(h, s, t) then [Deliver(h.sessions[s].reg.peerId, d.msgType, d.payload)] else []
    case Farewell(s) =>
      if h.sessions[s].room == h.sessions[t].room then [Leave(h.sessions[s].reg.peerId)] else []
    case _ => []
  }

  /** The frame that `s` is about to forward is for `t`. */
  predicate Reaches(h: Hub, s: nat, t: nat)
    requires s < |h.sessions| && t < |h.sessions|
  {
    var x := h.sessions[s];
    && x.pc.Routing? && x.pc.target < |h.rooms|
    && Holds(h.rooms[x.pc.target].members, x.pc.data.to, t)
    && h.sessions[t].reg.peerId != x.reg.peerId
  }

  lemma MemberHere(h: Hub, r: nat, t: nat)
    requires r < |h.rooms| && RoomOk(h, r) && t < |h.sessions| && h.sessions[t].room < |h.rooms| && Mapped(h, t)
    ensures IsMember(h.rooms[r].members, t) <==> h.sessions[t].room == r
  {
    if h.sessions[t].room == r {
      assert h.rooms[r].members[h.sessions[t].reg.peerId] == t;
    }
  }

  lemma WritesBroadcast(h: Hub, step: Step, t: nat)
    requires Tables(h) && Enabled(h, step) && t < |h.sessions| && (step.Announce? || step.Farewell?)
    requires h.sessions[t].room < |h.rooms| && Mapped(h, t)
    ensures t < |Next(h, step).sessions| && Next(h, step).sessions[t].out == h.sessions[t].out + Written(h, step, t)
  {
    MemberHere(h, h.sessions[step.s].room, t);
    assert h.sessions[t].out + [] == h.sessions[t].out;
  }

  lemma WritesForward(h: Hub, s: nat, ok: bool, t: nat)
    requires Tables(h) && Enabled(h, Forward(s, ok)) && t < |h.sessions|
    ensures t < |Next(h, Forward(s, ok)).sessions|
    ensures Next(h, Forward(s, ok)).sessions[t].out == h.sessions[t].out + Written(h, Forward(s, ok), t)
  {
    assert h.sessions[t].out + [] == h.sessions[t].out;
  }

  lemma WritesOwn(h: Hub, step: Step, t: nat)
    requires Enabled(h, step) && t < |h.sessions| && !step.Announce? && !step.Farewell? && !step.Forward?
    ensures t < |Next(h, step).sessions| && Next(h, step).sessions[t].out == h.sessions[t].out + Written(h, step, t)
  {
    assert h.sessions[t].out + [] == h.sessions[t].out;
  }

  lemma Writes(h: Hub, step: Step, t: nat)
    requires Tables(h) && Enabled(h, step) && t < |h.sessions|
    requires h.sessions[t].room < |h.rooms| && Mapped(h, t)
    ensures t < |Next(h, step).sessions| && Next(h, step).sessions[t].out == h.sessions[t].out + Written(h, step, t)
  {
    if step.Announce? || step.Farewell? {
      WritesBroadcast(h, step, t);
    } else if step.Forward? {
      WritesForward(h, step.s, step.ok, t);
    } else {
      WritesOwn(h, step, t);
    }
  }

  /** The sections that make what `t` has been sent wrong about `q`, by what holds as they run:
      an insert and a removal, until they are announced; and a broadcast, a greeting, a farewell or a data frame
      that comes too late. */
  ghost predicate Misleads(h: Hub, step: Step, t: nat, q: string)
    requires Enabled(h, step) && t < |h.sessions| && h.sessions[t].room < |h.rooms|
  {
    var r := h.sessions[t].room;
    var members := h.rooms[r].members;
    match step
    case Insert(s, _) => h.sessions[s].room == r && h.sessions[s].reg.peerId == q && q !in members
    case RemoveIf(s) => h.sessions[s].pc.found == r && h.sessions[s].reg.peerId == q && Holds(members, q, s)
    case Announce(s) => h.sessions[s].room == r && h.sessions[s].reg.peerId == q && q !in members
    case Greet(s, _) => s == t && h.sessions[s].existing[h.sessions[s].pc.next].peerId == q && q !in members
    case Farewell(s) => h.sessions[s].room == r && h.sessions[s].reg.peerId == q && q in members
    case Forward(s, _) => Reaches(h, s, t) && h.sessions[s].reg.peerId == q && q !in members
    case _ => false
  }

  lemma FoldOne(me: string, out: seq<Msg>, more: seq<Msg>)
    requires |more| <= 1
    ensures RelayView.Fold(me, {}, out + more) ==
            if more == [] then RelayView.Fold(me, {}, out) else RelayView.Handle(me, RelayView.Fold(me, {}, out), more[0])
  {
    if more == [] {
      assert out + more == out;
    } else {
      assert more == [more[0]];
      RelayView.FoldSnoc(me, {}, out, more[0]);
    }
  }

  /** What a step does to the presence of `q` in a table. */
  lemma TableSays(h: Hub, step: Step, r: nat, q: string)
    requires Enabled(h, step) && r < |h.rooms|
    ensures r < |Next(h, step).rooms|
    ensures q in Next(h, step).rooms[r].members <==>
              || (q in h.rooms[r].members
                  && !(step.RemoveIf? && h.sessions[step.s].pc.found == r && h.sessions[step.s].reg.peerId == q
                       && Holds(h.rooms[r].members, q, step.s)))
              || (step.Insert? && h.sessions[step.s].room == r && h.sessions[step.s].reg.peerId == q)
  {
  }

  /** What a step does to the presence of `q` in the view of `t`. */
  lemma ViewSays(h: Hub, step: Step, t: nat, q: string, view: set<string>)
    requires Tables(h) && Enabled(h, step) && t < |h.sessions| && h.sessions[t].room < |h.rooms| && q != h.sessions[t].reg.peerId
    ensures var w := Written(h, step, t);
            q in (if w == [] then view else RelayView.Handle(h.sessions[t].reg.peerId, view, w[0])) <==>
              || (q in view && !(step.Farewell? && h.sessions[step.s].room == h.sessions[t].room && h.sessions[step.s].reg.peerId == q))
              || (step.Announce? && h.sessions[step.s].room == h.sessions[t].room && h.sessions[step.s].reg.peerId == q)
              || (step.Greet? && step.s == t && h.sessions[t].existing[h.sessions[t].pc.next].peerId == q)
              || (step.Forward? && Reaches(h, step.s, t) && h.sessions[step.s].reg.peerId == q)
  {
    if step.Forward? {
      assert SessionOk(h, step.s);
    }
  }

  /** At lock granularity, of a session that stays mapped and a peer about which it has been told right: the next
      section makes it wrong exactly when it misleads. */
  lemma GoesWrongIff(h: Hub, step: Step, t: nat, q: string)
    requires Tables(h) && Enabled(h, step) && t < |h.sessions| && h.sessions[t].room < |h.rooms|
    requires Entered(h.sessions[t].pc) && Mapped(h, t) && q != h.sessions[t].reg.peerId && Right(h, t, q)
    ensures t < |Next(h, step).sessions| && Next(h, step).sessions[t].room == h.sessions[t].room < |Next(h, step).rooms|
    ensures Next(h, step).sessions[t].reg == h.sessions[t].reg
    ensures !Right(Next(h, step), t, q) <==> Misleads(h, step, t, q)
  {
    TablesStep(h, step);
    var h', x := Next(h, step), h.sessions[t];
    var view := RelayView.Fold(x.reg.peerId, {}, x.out);
    Writes(h, step, t);
    FoldOne(x.reg.peerId, x.out, Written(h, step, t));
    TableSays(h, step, x.room, q);
    ViewSays(h, step, t, q, view);
    WrongIff(h, step, t, q, view);
  }

  lemma WrongIff(h: Hub, step: Step, t: nat, q: string, view: set<string>)
    requires Enabled(h, step) && t < |h.sessions| && h.sessions[t].room < |h.rooms|
    requires q in view <==> q in h.rooms[h.sessions[t].room].members
    ensures var r := h.sessions[t].room;
            var m := h.rooms[r].members;
            var seen := || (q in view && !(step.Farewell? && h.sessions[step.s].room == r && h.sessions[step.s].reg.peerId == q))
                        || (step.Announce? && h.sessions[step.s].room == r && h.sessions[step.s].reg.peerId == q)
                        || (step.Greet? && step.s == t && h.sessions[t].existing[h.sessions[t].pc.next].peerId == q)
                        || (step.Forward? && Reaches(h, step.s, t) && h.sessions[step.s].reg.peerId == q);
            var there := || (q in m && !(step.RemoveIf? && h.sessions[step.s].pc.found == r && h.sessions[step.s].reg.peerId == q
                                         && Holds(m, q, step.s)))
                         || (step.Insert? && h.sessions[step.s].room == r && h.sessions[step.s].reg.peerId == q);
            (seen != there) <==> Misleads(h, step, t, q)
  {
  }

  /** The step at `i` does not mislead `t` about `q`, and `t` is still mapped there. */
  ghost predicate SafeAt(run: seq<Hub>, steps: seq<Step>, i: nat, t: nat, q: string)
    requires Run(run, steps) && i < |steps|
  {
    assert Linked(run, steps, i);
    && t < |run[i].sessions| && run[i].sessions[t].room < |run[i].rooms|
    && Mapped(run[i], t) && !Misleads(run[i], steps[i], t, q)
  }

  /** In a run, what a session has been told of a peer stays right for as long as no section misleads it. */
  lemma {:induction false} RightUntilMisled(run: seq<Hub>, steps: seq<Step>, i: nat, j: nat, t: nat, q: string)
    requires Run(run, steps) && i <= j <= |steps|
    requires t < |run[i].sessions| && run[i].sessions[t].room < |run[i].rooms| && Entered(run[i].sessions[t].pc)
    requires q != run[i].sessions[t].reg.peerId && Right(run[i], t, q)
    requires forall k :: i <= k < j ==> SafeAt(run, steps, k, t, q)
    ensures t < |run[j].sessions| && run[j].sessions[t].room < |run[j].rooms| && Entered(run[j].sessions[t].pc)
    ensures run[j].sessions[t].reg == run[i].sessions[t].reg && Right(run[j], t, q)
    decreases j - i
  {
    if i < j {
      RightUntilMisled(run, steps, i, j - 1, t, q);
      assert SafeAt(run, steps, j - 1, t, q) && Linked(run, steps, j - 1);
      TablesAlways(run, steps, j - 1);
      GoesWrongIff(run[j - 1], steps[j - 1], t, q);
      EnteredStays(run[j - 1], steps[j - 1], t);
    }
  }
}
