/** Who receives what through the relay: DATA frames and PEER_JOIN frames stay inside one room. */
module RelayIsolation {
  import opened RelayHub
  import opened RelaySafety

  // ---------------------------------------------------------------- room keys

  lemma FirstNul(n: string, k: string, n': string, k': string)
    requires '\0' !in n && |n| < |n'|
    requires RoomKey(n, k) == RoomKey(n', k')
    ensures '\0' in n'
  {
    assert RoomKey(n, k)[|n|] == '\0';
    assert RoomKey(n', k')[|n|] == n'[|n|];
  }

  /** Room keys tell sync groups apart as long as sync names are free of NUL. */
  lemma RoomKeyInjective(n: string, k: string, n': string, k': string)
    requires '\0' !in n && '\0' !in n'
    requires RoomKey(n, k) == RoomKey(n', k')
    ensures n == n' && k == k'
  {
    var s := RoomKey(n, k);
    if |n| < |n'| {
      FirstNul(n, k, n', k');
    } else if |n'| < |n| {
      FirstNul(n', k', n, k);
    }
    assert n == s[..|n|] && n' == s[..|n'|];
    assert k == s[|n| + 1..] && k' == s[|n'| + 1..];
  }

  /** In general a group shares its room key with some other group exactly when its name or its key has a NUL. */
  lemma RoomKeyAmbiguousIff(n: string, k: string)
    ensures (exists n', k' :: RoomKey(n', k') == RoomKey(n, k) && (n', k') != (n, k)) <==> '\0' in n || '\0' in k
  {
    if '\0' in n {
      var i :| 0 <= i < |n| && n[i] == '\0';
      var n', k' := n[..i], n[i + 1..] + ['\0'] + k;
      assert n == n[..i] + ['\0'] + n[i + 1..];
      assert RoomKey(n', k') == RoomKey(n, k);
      assert |n'| < |n|;
    } else if '\0' in k {
      var i :| 0 <= i < |k| && k[i] == '\0';
      var n', k' := n + ['\0'] + k[..i], k[i + 1..];
      assert k == k[..i] + ['\0'] + k[i + 1..];
      assert RoomKey(n', k') == RoomKey(n, k);
      assert |n'| > |n|;
    } else {
      forall n', k' | RoomKey(n', k') == RoomKey(n, k)
        ensures n' == n && k' == k
      {
        var s := RoomKey(n, k);
        assert forall i :: 0 <= i < |s| && s[i] == '\0' ==> i == |n|;
        assert s[|n'|] == RoomKey(n', k')[|n'|] == '\0';
        assert n == s[..|n|] == n' && k == s[|n| + 1..] == k';
      }
    }
  }

  // ---------------------------------------------------------------- forwarded data

  /** The forwarded frames among those written to a session. */
  function Deliveries(out: seq<Msg>): seq<Msg> {
    if out == [] then []
    else
      var last := out[|out| - 1];
      Deliveries(out[..|out| - 1]) + if last.Deliver? then [last] else []
  }

  function LogFor(log: seq<Delivery>, t: nat): seq<Msg> {
    if log == [] then []
    else
      var last := log[|log| - 1];
      LogFor(log[..|log| - 1], t) + if last.to == t then [last.msg] else []
  }

  lemma DeliveriesSnoc(out: seq<Msg>, m: Msg)
    ensures Deliveries(out + [m]) == Deliveries(out) + if m.Deliver? then [m] else []
  {
    assert (out + [m])[..|out|] == out;
  }

  lemma LogForSnoc(log: seq<Delivery>, d: Delivery, t: nat)
    ensures LogFor(log + [d], t) == LogFor(log, t) + if d.to == t then [d.msg] else []
  {
    assert (log + [d])[..|log|] == log;
  }

  /** The receiver holds the ID the sender named, in the sender's own group, and is not the sender; the
      message names the sender by its registered ID, whatever it claimed, and type and payload are untouched. */
  predicate Rightful(h: Hub, d: Delivery) {
    && d.from < |h.sessions| && d.to < |h.sessions|
    && var x, y := h.sessions[d.from].reg, h.sessions[d.to].reg;
       && KeyOf(x) == KeyOf(y)
       && y.peerId == d.data.to && y.peerId != x.peerId
       && d.msg == Deliver(x.peerId, d.data.msgType, d.data.payload)
  }

  ghost predicate Isolated(h: Hub) {
    && Tables(h)
    && (forall d :: d in h.log ==> Rightful(h, d))
    && (forall t :: 0 <= t < |h.sessions| ==> Deliveries(h.sessions[t].out) == LogFor(h.log, t))
    && (forall t :: t >= |h.sessions| ==> LogFor(h.log, t) == [])
  }

  /** At most one more frame, and not a forwarded one. */
  predicate OneMore(before: seq<Msg>, after: seq<Msg>, m: Msg) {
    !m.Deliver? && (after == before || after == before + [m])
  }

  lemma AnnounceWrites(h: Hub, s: nat, t: nat)
    requires Enabled(h, Announce(s)) && t < |h.sessions|
    ensures t < |Next(h, Announce(s)).sessions|
    ensures OneMore(h.sessions[t].out, Next(h, Announce(s)).sessions[t].out, Join(InfoOf(h.sessions[s].reg)))
  {
  }

  lemma FarewellWrites(h: Hub, s: nat, t: nat)
    requires Enabled(h, Farewell(s)) && t < |h.sessions|
    ensures t < |Next(h, Farewell(s)).sessions|
    ensures OneMore(h.sessions[t].out, Next(h, Farewell(s)).sessions[t].out, Leave(h.sessions[s].reg.peerId))
  {
  }

  lemma OwnWrites(h: Hub, step: Step, t: nat) returns (m: Msg)
    requires Enabled(h, step) && (step.Confirm? || step.Greet? || step.ReadPing?) && t < |h.sessions|
    ensures t < |Next(h, step).sessions| && OneMore(h.sessions[t].out, Next(h, step).sessions[t].out, m)
  {
    m := if step.Confirm? then RegisterOk else if step.Greet? then Join(h.sessions[step.s].existing[h.sessions[step.s].pc.next])
         else Pong;
  }

  lemma OneMoreDelivers(before: seq<Msg>, after: seq<Msg>, m: Msg)
    requires OneMore(before, after, m)
    ensures Deliveries(after) == Deliveries(before)
  {
    DeliveriesSnoc(before, m);
  }

  lemma NothingWritten(h: Hub, step: Step, t: nat)
    requires Enabled(h, step) && t < |h.sessions|
    requires !step.Announce? && !step.Farewell? && !step.Confirm? && !step.Greet? && !step.ReadPing? && !step.Forward?
    ensures t < |Next(h, step).sessions| && Next(h, step).sessions[t].out == h.sessions[t].out
  {
  }

  /** Every other step writes at most one frame to a session, and never a forwarded one. */
  lemma OnlyForwardDelivers(h: Hub, step: Step, t: nat)
    requires Enabled(h, step) && !step.Forward? && t < |h.sessions|
    ensures t < |Next(h, step).sessions|
    ensures Deliveries(Next(h, step).sessions[t].out) == Deliveries(h.sessions[t].out)
  {
    OnlyGrows(h, step);
    var before, after := h.sessions[t].out, Next(h, step).sessions[t].out;
    if step.Announce? {
      AnnounceWrites(h, step.s, t);
      OneMoreDelivers(before, after, Join(InfoOf(h.sessions[step.s].reg)));
    } else if step.Farewell? {
      FarewellWrites(h, step.s, t);
      OneMoreDelivers(before, after, Leave(h.sessions[step.s].reg.peerId));
    } else if step.Confirm? || step.Greet? || step.ReadPing? {
      var m := OwnWrites(h, step, t);
      OneMoreDelivers(before, after, m);
    } else {
      NothingWritten(h, step, t);
    }
  }

  lemma OnlyForwardLogs(h: Hub, step: Step)
    requires Enabled(h, step) && !step.Forward?
    ensures Next(h, step).log == h.log && |h.sessions| <= |Next(h, step).sessions|
  {
  }

  lemma NewcomersSilent(h: Hub, step: Step, t: nat)
    requires Enabled(h, step) && |h.sessions| <= t < |Next(h, step).sessions|
    ensures Next(h, step).sessions[t].out == []
  {
  }

  /** Registrations never change, so a rightful delivery stays one. */
  lemma RightfulStays(h: Hub, h': Hub, d: Delivery)
    requires Extends(h, h') && Rightful(h, d)
    ensures Rightful(h', d)
  {
  }

  /** What a forwarding adds to the log, if anything. */
  predicate Forwarded(h: Hub, s: nat, h': Hub, t: nat, d: Delivery)
    requires s < |h.sessions| && t < |h.sessions|
  {
    && d.to == t && h'.log == h.log + [d] && |h'.sessions| == |h.sessions|
    && h'.sessions[t].out == h.sessions[t].out + [d.msg] && d.msg.Deliver?
    && forall u :: 0 <= u < |h.sessions| && u != t ==> h'.sessions[u].out == h.sessions[u].out
  }

  lemma ForwardWrites(h: Hub, s: nat, ok: bool) returns (t: nat, d: Delivery)
    requires Tables(h) && Enabled(h, Forward(s, ok)) && ForwardStep(h, s, ok).log != h.log
    ensures t < |h.sessions| && Rightful(h, d) && Forwarded(h, s, ForwardStep(h, s, ok), t, d)
  {
    var x := h.sessions[s];
    assert SessionOk(h, s) && RoomOk(h, x.pc.target);
    t := h.rooms[x.pc.target].members[x.pc.data.to];
    assert SessionOk(h, t);
    d := Delivery(s, x.pc.data, t, Deliver(x.reg.peerId, x.pc.data.msgType, x.pc.data.payload));
  }

  lemma ForwardWritesNothing(h: Hub, s: nat, ok: bool, t: nat)
    requires Enabled(h, Forward(s, ok)) && ForwardStep(h, s, ok).log == h.log && t < |h.sessions|
    ensures |ForwardStep(h, s, ok).sessions| == |h.sessions| && ForwardStep(h, s, ok).sessions[t].out == h.sessions[t].out
  {
  }

  lemma LogsMatch(h: Hub, h': Hub, s: nat, t: nat, d: Delivery, u: nat)
    requires s < |h.sessions| && t < |h.sessions| && Forwarded(h, s, h', t, d)
    requires u < |h.sessions| ==> Deliveries(h.sessions[u].out) == LogFor(h.log, u)
    requires u >= |h.sessions| ==> LogFor(h.log, u) == []
    ensures u < |h'.sessions| ==> Deliveries(h'.sessions[u].out) == LogFor(h'.log, u)
    ensures u >= |h'.sessions| ==> LogFor(h'.log, u) == []
  {
    LogForSnoc(h.log, d, u);
    DeliveriesSnoc(h.sessions[t].out, d.msg);
  }

  /** What a forwarding writes, session by session: one frame to the one that the target room has under the ID named,
      unless that is the sender's own, and nothing to anybody else; it is closed if that fails. */
  lemma ForwardingWrites(h: Hub, s: nat, ok: bool, t: nat)
    requires Tables(h) && Enabled(h, Forward(s, ok)) && t < |h.sessions|
    ensures |ForwardStep(h, s, ok).sessions| == |h.sessions|
    ensures var x, d := h.sessions[s], h.sessions[s].pc.data;
            var members := h.rooms[h.sessions[s].pc.target].members;
            var hit := d.to in members && members[d.to] == t && d.to != x.reg.peerId;
            && ForwardStep(h, s, ok).sessions[t].out ==
                 h.sessions[t].out + (if hit then [Deliver(x.reg.peerId, d.msgType, d.payload)] else [])
            && ForwardStep(h, s, ok).sessions[t].closed == (h.sessions[t].closed || (hit && !ok))
  {
    assert RoomOk(h, h.sessions[s].pc.target);
    assert h.sessions[t].out + [] == h.sessions[t].out;
  }

  lemma AllRightful(h: Hub, h': Hub, d: Delivery)
    requires Isolated(h) && Extends(h, h') && h'.log == h.log + [d] && Rightful(h, d)
    ensures forall e :: e in h'.log ==> Rightful(h', e)
  {
    forall e | e in h'.log
      ensures Rightful(h', e)
    {
      RightfulStays(h, h', e);
    }
  }

  lemma AllMatch(h: Hub, h': Hub, s: nat, t: nat, d: Delivery)
    requires Isolated(h) && s < |h.sessions| && t < |h.sessions| && Forwarded(h, s, h', t, d)
    ensures forall u :: 0 <= u < |h'.sessions| ==> Deliveries(h'.sessions[u].out) == LogFor(h'.log, u)
    ensures forall u :: u >= |h'.sessions| ==> LogFor(h'.log, u) == []
  {
    forall u: nat
      ensures u < |h'.sessions| ==> Deliveries(h'.sessions[u].out) == LogFor(h'.log, u)
      ensures u >= |h'.sessions| ==> LogFor(h'.log, u) == []
    {
      LogsMatch(h, h', s, t, d, u);
    }
  }

  lemma ForwardIsRightful(h: Hub, s: nat, ok: bool)
    requires Isolated(h) && Enabled(h, Forward(s, ok))
    ensures Isolated(ForwardStep(h, s, ok))
  {
    var h' := ForwardStep(h, s, ok);
    TablesStep(h, Forward(s, ok));
    if h'.log != h.log {
      var t, d := ForwardWrites(h, s, ok);
      AllRightful(h, h', d);
      AllMatch(h, h', s, t, d);
    } else {
      forall u | 0 <= u < |h.sessions|
        ensures |h'.sessions| == |h.sessions| && h'.sessions[u].out == h.sessions[u].out
      {
        ForwardWritesNothing(h, s, ok, u);
      }
    }
  }

  lemma OtherIsolated(h: Hub, step: Step)
    requires Isolated(h) && Enabled(h, step) && !step.Forward?
    ensures Isolated(Next(h, step))
  {
    TablesStep(h, step);
    OnlyForwardLogs(h, step);
    var h' := Next(h, step);
    forall t | 0 <= t < |h'.sessions|
      ensures Deliveries(h'.sessions[t].out) == LogFor(h'.log, t)
    {
      if t < |h.sessions| {
        OnlyForwardDelivers(h, step, t);
      } else {
        NewcomersSilent(h, step, t);
      }
    }
  }

  lemma IsolatedStep(h: Hub, step: Step)
    requires Isolated(h) && Enabled(h, step)
    ensures Isolated(Next(h, step))
  {
    if step.Forward? {
      ForwardIsRightful(h, step.s, step.ok);
    } else {
      OtherIsolated(h, step);
    }
  }

  lemma {:induction false} IsolatedAlways(run: seq<Hub>, steps: seq<Step>, i: nat)
    requires Run(run, steps) && i <= |steps|
    ensures Isolated(run[i])
  {
    if i > 0 {
      IsolatedAlways(run, steps, i - 1);
      assert Linked(run, steps, i - 1);
      IsolatedStep(run[i - 1], steps[i - 1]);
    }
  }

  /** In every run, even when rooms are deleted and recreated while frames are on their way: the forwarded
      frames a session has been written are exactly the logged ones for it, in order, and each of those came
      from another member of its own sync group that addressed it, under that member's own ID. */
  lemma DataStaysInTheGroup(run: seq<Hub>, steps: seq<Step>, i: nat, t: nat)
    requires Run(run, steps) && i <= |steps| && t < |run[i].sessions|
    ensures Deliveries(run[i].sessions[t].out) == LogFor(run[i].log, t)
    ensures forall d :: d in run[i].log && d.to == t ==>
              && d.from < |run[i].sessions| && d.from != t
              && var x, y := run[i].sessions[d.from].reg, run[i].sessions[t].reg;
                 && y.peerId == d.data.to
                 && d.msg == Deliver(x.peerId, d.data.msgType, d.data.payload)
                 && ('\0' !in x.syncName && '\0' !in y.syncName ==> x.syncName == y.syncName && x.syncKey == y.syncKey)
  {
    IsolatedAlways(run, steps, i);
    forall d | d in run[i].log && d.to == t
      ensures Rightful(run[i], d)
      ensures var x, y := run[i].sessions[d.from].reg, run[i].sessions[t].reg;
              '\0' !in x.syncName && '\0' !in y.syncName ==> x.syncName == y.syncName && x.syncKey == y.syncKey
    {
      var x, y := run[i].sessions[d.from].reg, run[i].sessions[t].reg;
      if '\0' !in x.syncName && '\0' !in y.syncName {
        RoomKeyInjective(x.syncName, x.syncKey, y.syncName, y.syncKey);
      }
    }
  }

  // ---------------------------------------------------------------- announced peers

  /** Some session of room `r` registered with `info`. */
  ghost predicate Lived(h: Hub, r: nat, info: Info) {
    exists x :: 0 <= x < |h.sessions| && Entered(h.sessions[x].pc) && h.sessions[x].room == r && InfoOf(h.sessions[x].reg) == info
  }

  ghost predicate Sourced(h: Hub, s: nat)
    requires s < |h.sessions|
  {
    && (forall info :: info in h.sessions[s].existing ==> Lived(h, h.sessions[s].room, info))
    && (forall info :: Join(info) in h.sessions[s].out ==> Lived(h, h.sessions[s].room, info))
    && (!Entered(h.sessions[s].pc) ==> h.sessions[s].existing == [] && h.sessions[s].out == [])
  }

  ghost predicate AllSourced(h: Hub) {
    && Tables(h)
    && forall s :: 0 <= s < |h.sessions| ==> Sourced(h, s)
  }

  lemma LivedStep(h: Hub, step: Step, r: nat, info: Info)
    requires Tables(h) && Enabled(h, step) && Lived(h, r, info)
    ensures Lived(Next(h, step), r, info)
  {
    TablesStep(h, step);
    var x :| 0 <= x < |h.sessions| && Entered(h.sessions[x].pc) && h.sessions[x].room == r && InfoOf(h.sessions[x].reg) == info;
    EnteredStays(h, step, x);
    assert InfoOf(Next(h, step).sessions[x].reg) == info;
  }

  lemma NewJoinsOf(h: Hub, step: Step, s: nat, info: Info)
    requires Enabled(h, step) && s < |h.sessions| && s < |Next(h, step).sessions|
    requires Join(info) in Next(h, step).sessions[s].out && Join(info) !in h.sessions[s].out
    ensures step.Greet? || step.Announce?
  {
    if !step.Greet? && !step.Announce? && !step.Forward? {
      NoJoinWritten(h, step, s);
    }
  }

  lemma NoJoinWritten(h: Hub, step: Step, s: nat)
    requires Enabled(h, step) && s < |h.sessions| && !step.Greet? && !step.Announce? && !step.Forward?
    ensures s < |Next(h, step).sessions|
    ensures forall info :: Join(info) in Next(h, step).sessions[s].out ==> Join(info) in h.sessions[s].out
  {
  }

  /** The joins a step writes: the announcing session's own, or the next one of the snapshot. */
  lemma NewJoins(h: Hub, step: Step, s: nat, info: Info)
    requires Tables(h) && Enabled(h, step) && s < |h.sessions| && s < |Next(h, step).sessions|
    requires Join(info) in Next(h, step).sessions[s].out && Join(info) !in h.sessions[s].out
    ensures || (step.Greet? && step.s == s && info in h.sessions[s].existing)
            || (&& step.Announce? && h.sessions[step.s].room == h.sessions[s].room
                && info == InfoOf(h.sessions[step.s].reg) && Entered(h.sessions[step.s].pc))
  {
    NewJoinsOf(h, step, s, info);
    if step.Announce? {
      assert RoomOk(h, h.sessions[step.s].room);
    }
  }

  lemma NewExisting(h: Hub, step: Step, s: nat, info: Info)
    requires Tables(h) && Enabled(h, step) && s < |h.sessions| && s < |Next(h, step).sessions|
    requires info in Next(h, step).sessions[s].existing && info !in h.sessions[s].existing
    ensures Lived(h, h.sessions[s].room, info)
  {
    assert step.Insert? && step.s == s;
    assert RoomOk(h, h.sessions[s].room);
    var members := h.rooms[h.sessions[s].room].members;
    var y := Next(h, step).sessions[s];
    var i :| 0 <= i < |y.existing| && y.existing[i] == info;
    assert step.order[i] in step.order;
    var t := members[step.order[i]];
    assert InfoOf(h.sessions[t].reg) == info;
  }

  lemma ExistingSourced(h: Hub, step: Step, s: nat)
    requires AllSourced(h) && Enabled(h, step) && s < |h.sessions|
    ensures s < |Next(h, step).sessions|
    ensures forall info :: info in Next(h, step).sessions[s].existing ==> Lived(Next(h, step), h.sessions[s].room, info)
  {
    OnlyGrows(h, step);
    forall info | info in Next(h, step).sessions[s].existing
      ensures Lived(Next(h, step), h.sessions[s].room, info)
    {
      assert Sourced(h, s);
      if info !in h.sessions[s].existing {
        NewExisting(h, step, s, info);
      }
      LivedStep(h, step, h.sessions[s].room, info);
    }
  }

  lemma JoinsSourced(h: Hub, step: Step, s: nat)
    requires AllSourced(h) && Enabled(h, step) && s < |h.sessions|
    ensures s < |Next(h, step).sessions|
    ensures forall info :: Join(info) in Next(h, step).sessions[s].out ==> Lived(Next(h, step), h.sessions[s].room, info)
  {
    OnlyGrows(h, step);
    forall info | Join(info) in Next(h, step).sessions[s].out
      ensures Lived(Next(h, step), h.sessions[s].room, info)
    {
      assert Sourced(h, s);
      if Join(info) !in h.sessions[s].out {
        NewJoins(h, step, s, info);
      }
      LivedStep(h, step, h.sessions[s].room, info);
    }
  }

  lemma OnlyGrows(h: Hub, step: Step)
    requires Enabled(h, step)
    ensures |h.sessions| <= |Next(h, step).sessions|
  {
  }

  lemma SourcedStep(h: Hub, step: Step, s: nat)
    requires AllSourced(h) && Enabled(h, step) && s < |Next(h, step).sessions|
    ensures Sourced(Next(h, step), s)
  {
    if s < |h.sessions| {
      ExistingSourced(h, step, s);
      JoinsSourced(h, step, s);
      assert Sourced(h, s);
      SilentBeforeEntry(h, step, s);
      TablesStep(h, step);
      if h.sessions[s].pc.Looking? {
        LookingIsSilent(h, step, s);
      }
    }
  }

  lemma LookingIsSilentAtEntry(h: Hub, step: Step, s: nat)
    requires IsEntry(step)
    requires AllSourced(h) && Enabled(h, step) && s < |h.sessions| && h.sessions[s].pc.Looking?
    ensures s < |Next(h, step).sessions| && !Entered(Next(h, step).sessions[s].pc)
  {
  }

  lemma LookingIsSilentLater(h: Hub, step: Step, s: nat)
    requires !IsEntry(step)
    requires AllSourced(h) && Enabled(h, step) && s < |h.sessions| && h.sessions[s].pc.Looking?
    ensures s < |Next(h, step).sessions| && !Entered(Next(h, step).sessions[s].pc)
  {
  }

  /** A handler that has not looked its room up yet has nothing to account for. */
  lemma LookingIsSilent(h: Hub, step: Step, s: nat)
    requires AllSourced(h) && Enabled(h, step) && s < |h.sessions| && h.sessions[s].pc.Looking?
    ensures s < |Next(h, step).sessions| && !Entered(Next(h, step).sessions[s].pc)
  {
    if IsEntry(step) {
      LookingIsSilentAtEntry(h, step, s);
    } else {
      LookingIsSilentLater(h, step, s);
    }
  }

  /** A handler that has not entered its room is not in the member table, so nobody writes to it. */
  lemma NobodyWrites(h: Hub, step: Step, s: nat)
    requires Tables(h) && Enabled(h, step) && s < |h.sessions| && !Entered(h.sessions[s].pc)
    requires step.Announce? || step.Farewell? || step.Forward?
    ensures s < |Next(h, step).sessions| && Next(h, step).sessions[s] == h.sessions[s]
  {
    if step.Forward? {
      assert RoomOk(h, h.sessions[step.s].pc.target);
    } else {
      assert RoomOk(h, h.sessions[step.s].room);
    }
  }

  lemma SilentBeforeEntry(h: Hub, step: Step, s: nat)
    requires Tables(h) && Enabled(h, step) && s < |h.sessions| && Sourced(h, s)
    ensures s < |Next(h, step).sessions|
    ensures var y := Next(h, step).sessions[s]; !Entered(y.pc) ==> y.existing == [] && y.out == []
  {
    if Entered(h.sessions[s].pc) {
      EnteredStays(h, step, s);
    } else if step.Announce? || step.Farewell? || step.Forward? {
      NobodyWrites(h, step, s);
    } else {
      OthersSilent(h, step, s);
    }
  }

  lemma OthersSilent(h: Hub, step: Step, s: nat)
    requires Enabled(h, step) && s < |h.sessions| && !Entered(h.sessions[s].pc)
    requires h.sessions[s].existing == [] && h.sessions[s].out == []
    requires !step.Announce? && !step.Farewell? && !step.Forward?
    ensures s < |Next(h, step).sessions|
    ensures var y := Next(h, step).sessions[s]; !Entered(y.pc) ==> y.existing == [] && y.out == []
  {
  }

  lemma {:induction false} SourcedAlways(run: seq<Hub>, steps: seq<Step>, i: nat)
    requires Run(run, steps) && i <= |steps|
    ensures AllSourced(run[i])
  {
    if i > 0 {
      SourcedAlways(run, steps, i - 1);
      assert Linked(run, steps, i - 1);
      TablesStep(run[i - 1], steps[i - 1]);
      forall s | 0 <= s < |run[i].sessions|
        ensures Sourced(run[i], s)
      {
        SourcedStep(run[i - 1], steps[i - 1], s);
      }
    }
  }

  /** A client is only ever told of peers that really registered in its own room object. */
  lemma JoinsComeFromTheRoom(run: seq<Hub>, steps: seq<Step>, i: nat, s: nat, info: Info)
    requires Run(run, steps) && i <= |steps| && s < |run[i].sessions|
    requires Join(info) in run[i].sessions[s].out
    ensures exists x :: 0 <= x < |run[i].sessions| && run[i].sessions[x].room == run[i].sessions[s].room
                        && info == Info(run[i].sessions[x].reg.peerId, run[i].sessions[x].reg.role, run[i].sessions[x].reg.direction)
  {
    SourcedAlways(run, steps, i);
    assert Sourced(run[i], s);
  }
}
