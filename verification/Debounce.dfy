/** The watcher's debounce timers. A timer that has fired has a goroutine of its own, which first takes the
    mutex to remove the folder's entry and only then calls back; stopping it no longer has any effect. */
module Debounce {
  import opened Paths

  // ---------------------------------------------------------------- which folder an event belongs to

  function TopLevelFolder(rel: string): string {
    var parts := Split(rel);
    if |parts| == 1 then "." else parts[0]
  }

  /** A file directly under the root is reported as the root, anything deeper as its top-level directory. */
  lemma TopLevelFolderIs(at: seq<string>)
    requires Parts(at)
    ensures TopLevelFolder(Join(at)) == if |at| == 1 then "." else at[0]
  {
    SplitOfJoin(at);
  }

  // ---------------------------------------------------------------- the machine

  datatype Status = Armed | Fired | Entered | Called | Stopped

  datatype Timer = Timer(folder: string, status: Status)

  /** `dirty` are the folders with an event that no later callback has covered; `calls` counts the callbacks. */
  datatype Machine = Machine(pending: map<string, nat>, timers: seq<Timer>, closed: bool, dirty: set<string>, calls: nat)

  const IDLE := Machine(map[], [], false, {}, 0)

  datatype Step =
    | Event(folder: string)
    | Fire(t: nat)
    | Enter(t: nat)
    | Call(t: nat)
    | Close

  predicate Enabled(m: Machine, step: Step) {
    match step
    case Event(_) => true
    case Fire(t) => t < |m.timers| && m.timers[t].status.Armed?
    case Enter(t) => t < |m.timers| && m.timers[t].status.Fired?
    case Call(t) => t < |m.timers| && m.timers[t].status.Entered?
    case Close => true
  }

  /** `time.Timer.Stop`: no effect on a timer that has fired. */
  function Stop(t: Timer): Timer {
    if t.status.Armed? then t.(status := Stopped) else t
  }

  function SetStatus(m: Machine, t: nat, s: Status): Machine
    requires t < |m.timers|
  {
    m.(timers := m.timers[t := m.timers[t].(status := s)])
  }

  function Schedule(m: Machine, folder: string): Machine {
    if m.closed then m
    else
      var timers := if folder in m.pending && m.pending[folder] < |m.timers|
                    then m.timers[m.pending[folder] := Stop(m.timers[m.pending[folder]])] else m.timers;
      m.(timers := timers + [Timer(folder, Armed)], pending := m.pending[folder := |timers|])
  }

  predicate IsPending(m: Machine, t: nat) {
    exists f :: f in m.pending && m.pending[f] == t
  }

  function Next(m: Machine, step: Step): Machine
    requires Enabled(m, step)
  {
    match step
    case Event(f) => Schedule(m, f).(dirty := m.dirty + {f})
    case Fire(t) => SetStatus(m, t, Fired)
    case Enter(t) => SetStatus(m, t, Entered).(pending := m.pending - {m.timers[t].folder})
    case Call(t) => SetStatus(m, t, Called).(dirty := m.dirty - {m.timers[t].folder}, calls := m.calls + 1)
    case Close =>
      m.(closed := true,
         timers := seq(|m.timers|, i requires 0 <= i < |m.timers| =>
                     if IsPending(m, i) then Stop(m.timers[i]) else m.timers[i]))
  }

  function Play(m: Machine, steps: seq<Step>): Machine
    requires Legal(m, steps)
    decreases |steps|
  {
    if steps == [] then m else Play(Next(m, steps[0]), steps[1..])
  }

  predicate Legal(m: Machine, steps: seq<Step>)
    decreases |steps|
  {
    steps == [] || (Enabled(m, steps[0]) && Legal(Next(m, steps[0]), steps[1..]))
  }

  // ---------------------------------------------------------------- no event is lost

  /** Its callback is still to come. */
  predicate Live(t: Timer) {
    t.status.Armed? || t.status.Fired? || t.status.Entered?
  }

  predicate Covered(m: Machine, folder: string) {
    exists t :: 0 <= t < |m.timers| && m.timers[t].folder == folder && Live(m.timers[t])
  }

  function CallCount(timers: seq<Timer>): nat {
    if timers == [] then 0
    else CallCount(timers[..|timers| - 1]) + if timers[|timers| - 1].status.Called? then 1 else 0
  }

  predicate Inv(m: Machine) {
    && (forall f :: f in m.pending ==> m.pending[f] < |m.timers| && m.timers[m.pending[f]].folder == f)
    && (!m.closed ==> forall f :: f in m.dirty ==> Covered(m, f))
    && m.calls == CallCount(m.timers)
  }

  lemma {:induction false} CallCountUpdate(timers: seq<Timer>, t: nat, x: Timer)
    requires t < |timers| && !timers[t].status.Called?
    ensures CallCount(timers[t := x]) == CallCount(timers) + if x.status.Called? then 1 else 0
  {
    var n := |timers| - 1;
    if t < n {
      assert timers[t := x][..n] == timers[..n][t := x];
      CallCountUpdate(timers[..n], t, x);
    } else {
      assert timers[t := x][..n] == timers[..n];
    }
  }

  lemma {:induction false} CallCountSame(a: seq<Timer>, b: seq<Timer>)
    requires |a| == |b| && forall i :: 0 <= i < |a| ==> (a[i].status.Called? <==> b[i].status.Called?)
    ensures CallCount(a) == CallCount(b)
  {
    if a != [] {
      CallCountSame(a[..|a| - 1], b[..|b| - 1]);
    }
  }

  lemma {:induction false} CallCountBound(timers: seq<Timer>)
    ensures CallCount(timers) <= |timers|
  {
    if timers != [] {
      CallCountBound(timers[..|timers| - 1]);
    }
  }

  lemma CoveredStays(m: Machine, m': Machine, f: string)
    requires Covered(m, f) && |m'.timers| >= |m.timers|
    requires forall t :: 0 <= t < |m.timers| ==>
               m'.timers[t].folder == m.timers[t].folder && (m.timers[t].folder == f && Live(m.timers[t]) ==> Live(m'.timers[t]))
    ensures Covered(m', f)
  {
    var t :| 0 <= t < |m.timers| && m.timers[t].folder == f && Live(m.timers[t]);
    assert m'.timers[t].folder == f && Live(m'.timers[t]);
  }

  lemma ScheduleCalls(m: Machine, folder: string)
    requires Inv(m) && !m.closed
    ensures CallCount(Schedule(m, folder).timers) == CallCount(m.timers)
  {
    var n, timers := |m.timers|, Schedule(m, folder).timers;
    assert timers[..n] == if folder in m.pending then m.timers[m.pending[folder] := Stop(m.timers[m.pending[folder]])] else m.timers;
    CallCountSame(timers[..n], m.timers);
    assert timers[n] == Timer(folder, Armed);
  }

  lemma EventInv(m: Machine, folder: string)
    requires Inv(m)
    ensures Inv(Next(m, Event(folder)))
  {
    if !m.closed {
      ScheduleCalls(m, folder);
      EventCovered(m, folder);
    }
  }

  lemma EventCovered(m: Machine, folder: string)
    requires Inv(m) && !m.closed
    ensures forall f :: f in m.dirty + {folder} ==> Covered(Schedule(m, folder), f)
  {
    var m' := Schedule(m, folder);
    forall f | f in m.dirty + {folder}
      ensures Covered(m', f)
    {
      if f == folder {
        assert m'.timers[|m.timers|] == Timer(folder, Armed);
      } else {
        CoveredStays(m, m', f);
      }
    }
  }

  lemma StepInv(m: Machine, step: Step)
    requires Inv(m) && Enabled(m, step)
    ensures Inv(Next(m, step))
  {
    var m' := Next(m, step);
    match step
    case Event(f) => EventInv(m, f);
    case Close => CallCountSame(m.timers, m'.timers);
    case _ =>
      CallCountUpdate(m.timers, step.t, m'.timers[step.t]);
      if !m.closed {
        forall f | f in m'.dirty
          ensures Covered(m', f)
        {
          CoveredStays(m, m', f);
        }
      }
  }

  lemma {:induction false} InvAlways(m: Machine, steps: seq<Step>)
    requires Inv(m) && Legal(m, steps)
    ensures Inv(Play(m, steps))
    decreases |steps|
  {
    if steps != [] {
      StepInv(m, steps[0]);
      InvAlways(Next(m, steps[0]), steps[1..]);
    }
  }

  function Events(steps: seq<Step>): nat {
    if steps == [] then 0 else (if steps[0].Event? then 1 else 0) + Events(steps[1..])
  }

  lemma {:induction false} TimersBound(m: Machine, steps: seq<Step>)
    requires Legal(m, steps)
    ensures |Play(m, steps).timers| <= |m.timers| + Events(steps)
    decreases |steps|
  {
    if steps != [] {
      TimersBound(Next(m, steps[0]), steps[1..]);
    }
  }

  /** In every state the watcher can reach before it is closed, a folder with an event that no later callback has
      covered has a timer whose callback is still to come; so once all timers have run nothing is left over. And
      there are never more callbacks than events. */
  lemma NoEventIsLost(steps: seq<Step>)
    requires Legal(IDLE, steps)
    ensures var m := Play(IDLE, steps);
            && (!m.closed ==> forall f :: f in m.dirty ==> Covered(m, f))
            && (!m.closed && (forall t :: 0 <= t < |m.timers| ==> !Live(m.timers[t])) ==> m.dirty == {})
            && m.calls <= Events(steps)
  {
    InvAlways(IDLE, steps);
    TimersBound(IDLE, steps);
    CallCountBound(Play(IDLE, steps).timers);
  }

  /** Every armed timer is the one that is entered for its folder, so there is one at most. */
  predicate AllEntered(m: Machine) {
    forall t :: 0 <= t < |m.timers| && m.timers[t].status.Armed? ==>
      m.timers[t].folder in m.pending && m.pending[m.timers[t].folder] == t
  }

  lemma OneArmedTimer(m: Machine, t: nat, u: nat)
    requires AllEntered(m) && t < |m.timers| && u < |m.timers|
    requires m.timers[t].status.Armed? && m.timers[u].status.Armed? && m.timers[t].folder == m.timers[u].folder
    ensures t == u
  {
  }

  /** That stays so, with one exception: a callback that removes the entry of a timer set after its own. */
  lemma AllEnteredIff(m: Machine, step: Step)
    requires Inv(m) && AllEntered(m) && Enabled(m, step)
    ensures AllEntered(Next(m, step)) <==>
              !(step.Enter? && m.timers[step.t].folder in m.pending
                && m.pending[m.timers[step.t].folder] != step.t
                && m.timers[m.pending[m.timers[step.t].folder]].status.Armed?)
  {
    if step.Enter? && m.timers[step.t].folder in m.pending {
      var u := m.pending[m.timers[step.t].folder];
      assert u != step.t ==> Next(m, step).timers[u] == m.timers[u];
    }
  }

  /** Bursts of events are one: after an event the folder has exactly one armed timer, the new one. */
  lemma EventLeavesOneTimer(m: Machine, folder: string)
    requires Inv(m) && AllEntered(m) && !m.closed
    ensures var m' := Next(m, Event(folder));
            && AllEntered(m') && |m'.timers| == |m.timers| + 1
            && forall t :: 0 <= t < |m'.timers| ==>
                 (m'.timers[t].status.Armed? && m'.timers[t].folder == folder <==> t == |m.timers|)
  {
    AllEnteredIff(m, Event(folder));
  }

  /** Every timer whose callback is still to come is armed and entered for its folder. */
  predicate AllStoppable(m: Machine) {
    forall t :: 0 <= t < |m.timers| && Live(m.timers[t]) ==> m.timers[t].status.Armed? && IsPending(m, t)
  }

  predicate Dead(m: Machine) {
    m.closed && forall t :: 0 <= t < |m.timers| ==> !Live(m.timers[t])
  }

  lemma {:induction false} DeadStays(m: Machine, steps: seq<Step>)
    requires Dead(m) && Legal(m, steps)
    ensures Play(m, steps).calls == m.calls
    decreases |steps|
  {
    if steps != [] {
      assert Dead(Next(m, steps[0]));
      DeadStays(Next(m, steps[0]), steps[1..]);
    }
  }

  lemma Before(m: Machine, step: Step, steps: seq<Step>)
    requires Enabled(m, step) && Legal(Next(m, step), steps)
    ensures Legal(m, [step] + steps) && Play(m, [step] + steps) == Play(Next(m, step), steps)
  {
    assert ([step] + steps)[1..] == steps;
  }

  /** A timer that is still to call back can do so, whatever else happens or does not. */
  lemma LiveCalls(m: Machine, t: nat) returns (steps: seq<Step>)
    requires t < |m.timers| && Live(m.timers[t])
    ensures Legal(m, steps) && Play(m, steps).calls == m.calls + 1
    decreases if m.timers[t].status.Armed? then 2 else if m.timers[t].status.Fired? then 1 else 0
  {
    match m.timers[t].status
    case Armed =>
      var rest := LiveCalls(Next(m, Fire(t)), t);
      Before(m, Fire(t), rest);
      steps := [Fire(t)] + rest;
    case Fired =>
      var rest := LiveCalls(Next(m, Enter(t)), t);
      Before(m, Enter(t), rest);
      steps := [Enter(t)] + rest;
    case _ =>
      Before(m, Call(t), []);
      steps := [Call(t)] + [];
  }

  /** No callback ever comes after `Close` exactly when, at that moment, every timer that has yet to call back is
      armed and still entered for its folder. */
  lemma CloseIsFinalIff(m: Machine)
    ensures var m' := Next(m, Close);
            (forall steps :: Legal(m', steps) ==> Play(m', steps).calls == m'.calls) <==> AllStoppable(m)
  {
    var m' := Next(m, Close);
    if AllStoppable(m) {
      assert Dead(m');
      forall steps | Legal(m', steps)
        ensures Play(m', steps).calls == m'.calls
      {
        DeadStays(m', steps);
      }
    } else {
      var t :| 0 <= t < |m.timers| && Live(m.timers[t]) && !(m.timers[t].status.Armed? && IsPending(m, t));
      assert m'.timers[t] == m.timers[t];
      var steps := LiveCalls(m', t);
    }
  }

  /** It does happen: a callback that removes the entry of the timer that was set after it leaves that timer armed
      but unknown, and it calls back after the watcher was closed. */
  lemma CallbackAfterClose(folder: string) returns (before: seq<Step>, after: seq<Step>)
    ensures Legal(IDLE, before) && Play(IDLE, before).closed
    ensures Legal(Play(IDLE, before), after) && Play(Play(IDLE, before), after).calls > Play(IDLE, before).calls
  {
    var f0, f1 := Timer(folder, Fired), Timer(folder, Armed);
    var m1 := Machine(map[folder := 0], [f1], false, {folder}, 0);
    var m2 := m1.(timers := [f0]);
    var m3 := Machine(map[folder := 1], [f0, f1], false, {folder}, 0);
    var m4 := m3.(pending := map[], timers := [f0.(status := Entered), f1]);
    var m5 := m4.(closed := true);
    before := [Event(folder), Fire(0), Event(folder), Enter(0), Close];
    assert Next(IDLE, Event(folder)) == m1;
    assert Next(m1, Fire(0)) == m2;
    assert Next(m2, Event(folder)) == m3;
    assert Next(m3, Enter(0)) == m4;
    assert Next(m4, Close) == m5;
    assert Legal(m5, before[5..]) && Play(m5, before[5..]) == m5;
    assert before[4..][1..] == before[5..] && before[3..][1..] == before[4..] && before[2..][1..] == before[3..];
    assert before[1..][1..] == before[2..];
    assert Legal(m4, before[4..]) && Play(m4, before[4..]) == m5;
    assert Legal(m3, before[3..]) && Play(m3, before[3..]) == m5;
    assert Legal(m2, before[2..]) && Play(m2, before[2..]) == m5;
    assert Legal(m1, before[1..]) && Play(m1, before[1..]) == m5;
    after := [Fire(1), Enter(1), Call(1)];
    var m6 := m5.(timers := [f0.(status := Entered), f1.(status := Fired)]);
    var m7 := m5.(timers := [f0.(status := Entered), f1.(status := Entered)]);
    assert Next(m5, Fire(1)) == m6;
    assert Next(m6, Enter(1)) == m7;
    var m8 := Next(m7, Call(1));
    assert after[1..][1..] == after[2..] && after[2..][1..] == [];
    assert Legal(m8, []) && Play(m8, []) == m8;
    assert Legal(m7, after[2..]) && Play(m7, after[2..]) == m8;
    assert Legal(m6, after[1..]) && Play(m6, after[1..]) == m8;
  }

  // ---------------------------------------------------------------- the code

  class TimerObject {
    const folder: string
    var status: Status

    constructor (folder: string)
      ensures this.folder == folder && status == Armed
    {
      this.folder := folder;
      status := Armed;
    }

    method StopIt()
      modifies this
      ensures Timer(folder, status) == Stop(old(Timer(folder, status)))
    {
      if status == Armed {
        status := Stopped;
      }
    }
  }

  /** The sections of the watcher that run under its mutex. */
  class Watcher {
    var pending: map<string, TimerObject>
    var closed: bool

    method ScheduleFolder(folder: string) returns (t: TimerObject?)
      modifies this, set f | f in pending :: pending[f]
      ensures closed == old(closed)
      ensures t == null <==> closed
      ensures closed ==> pending == old(pending)
      ensures !closed ==> fresh(t) && t.folder == folder && t.status == Armed && pending == old(pending)[folder := t]
      ensures forall f :: f in old(pending) ==>
                var x := old(pending)[f];
                x.status == if !closed && folder in old(pending) && x == old(pending)[folder]
                            then Stop(Timer(f, old(x.status))).status else old(x.status)
    {
      if closed {
        return null;
      }
      if folder in pending {
        pending[folder].StopIt();
      }
      t := new TimerObject(folder);
      pending := pending[folder := t];
    }

    /** The first half of a timer's callback: it removes the folder's entry, whichever timer that is now. */
    method EnterCallback(t: TimerObject)
      requires t.status == Fired
      modifies this`pending, t
      ensures pending == old(pending) - {t.folder} && t.status == Entered
    {
      pending := pending - {t.folder};
      t.status := Entered;
    }

    method CloseAll()
      modifies this, set f | f in pending :: pending[f]
      ensures closed && pending == old(pending)
      ensures forall f :: f in pending ==> pending[f].status == Stop(Timer(f, old(pending[f].status))).status
    {
      closed := true;
      var todo := pending.Keys;
      while todo != {}
        invariant closed && pending == old(pending) && todo <= pending.Keys
        invariant forall f :: f in pending ==>
                    pending[f].status == old(pending[f].status)
                    || pending[f].status == Stop(Timer(f, old(pending[f].status))).status
        invariant forall f :: f in pending && f !in todo ==>
                    pending[f].status == Stop(Timer(f, old(pending[f].status))).status
      {
        var f :| f in todo;
        pending[f].StopIt();
        todo := todo - {f};
      }
    }
  }
}
