/** The approval queue of ask_folder mode: callers of `Wait` block on a channel of their own until somebody
    approves the folder. Each section under the mutex is one step, and so is each closing of a channel. */
module Approval {

  /** Where a channel is: in the queue of a folder, with a running `Approve` that has yet to close it, or closed. */
  datatype Place = Queued(folder: string) | Held(approver: nat) | Closed

  /** `place` and `closings` are history; `closings` counts how often each channel has been closed. */
  datatype Chan = Chan(place: Place, closings: nat)

  datatype Waiter = Blocked(folder: string, chan: nat) | Returned(folder: string)

  /** What a running `Approve` has left to close. */
  datatype Approver = Approver(folder: string, todo: seq<nat>)

  datatype Queue = Queue(
    auto: bool, approved: set<string>, waiting: map<string, seq<nat>>,
    chans: seq<Chan>, waiters: seq<Waiter>, approvers: seq<Approver>)

  function Fresh(auto: bool): Queue {
    Queue(auto, {}, map[], [], [], [])
  }

  datatype Step =
    | Wait(folder: string)
    | Approve(folder: string)
    | CloseNext(a: nat)
    | Wake(w: nat)

  predicate IsClosed(q: Queue, c: nat) {
    c < |q.chans| && q.chans[c].closings > 0
  }

  predicate Enabled(q: Queue, step: Step) {
    match step
    case Wait(_) => true
    case Approve(_) => true
    case CloseNext(a) => a < |q.approvers| && q.approvers[a].todo != [] && q.approvers[a].todo[0] < |q.chans|
    case Wake(w) => w < |q.waiters| && q.waiters[w].Blocked? && IsClosed(q, q.waiters[w].chan)
  }

  function Next(q: Queue, step: Step): Queue
    requires Enabled(q, step)
  {
    match step
    case Wait(f) => WaitStep(q, f)
    case Approve(f) => ApproveStep(q, f)
    case CloseNext(a) =>
      var c := q.approvers[a].todo[0];
      q.(approvers := q.approvers[a := q.approvers[a].(todo := q.approvers[a].todo[1..])],
         chans := q.chans[c := Chan(Closed, q.chans[c].closings + 1)])
    case Wake(w) => q.(waiters := q.waiters[w := Returned(q.waiters[w].folder)])
  }

  function WaitingFor(q: Queue, f: string): seq<nat> {
    if f in q.waiting then q.waiting[f] else []
  }

  function WaitStep(q: Queue, f: string): Queue {
    if q.auto || f in q.approved then q.(waiters := q.waiters + [Returned(f)])
    else
      var c := |q.chans|;
      q.(waiters := q.waiters + [Blocked(f, c)], chans := q.chans + [Chan(Queued(f), 0)],
         waiting := q.waiting[f := WaitingFor(q, f) + [c]])
  }

  function ApproveStep(q: Queue, f: string): Queue {
    var a := |q.approvers|;
    q.(approved := q.approved + {f}, waiting := q.waiting - {f},
       approvers := q.approvers + [Approver(f, WaitingFor(q, f))],
       chans := seq(|q.chans|, i requires 0 <= i < |q.chans| =>
                  if i in WaitingFor(q, f) then q.chans[i].(place := Held(a)) else q.chans[i]))
  }

  predicate Run(auto: bool, run: seq<Queue>, steps: seq<Step>) {
    && |run| == |steps| + 1 && run[0] == Fresh(auto)
    && forall i :: 0 <= i < |steps| ==> Linked(run, steps, i)
  }

  predicate Linked(run: seq<Queue>, steps: seq<Step>, i: nat)
    requires |run| == |steps| + 1 && i < |steps|
  {
    Enabled(run[i], steps[i]) && run[i + 1] == Next(run[i], steps[i])
  }

  // ---------------------------------------------------------------- every channel is in one place

  predicate Distinct(cs: seq<nat>) {
    forall i, j :: 0 <= i < j < |cs| ==> cs[i] != cs[j]
  }

  /** A list of channels that are all in the same place, each once. */
  predicate AllAt(q: Queue, cs: seq<nat>, p: Place) {
    Distinct(cs) && forall i :: 0 <= i < |cs| ==> cs[i] < |q.chans| && q.chans[cs[i]].place == p
  }

  /** A channel is where its `place` says, and has been closed once or never. */
  predicate ChanOk(q: Queue, c: nat)
    requires c < |q.chans|
  {
    match q.chans[c].place
    case Queued(f) => f in q.waiting && c in q.waiting[f] && q.chans[c].closings == 0
    case Held(a) => a < |q.approvers| && c in q.approvers[a].todo && q.chans[c].closings == 0
    case Closed => q.chans[c].closings == 1
  }

  /** A blocked caller's channel is in its folder's queue, or with an approver of its folder, or closed. */
  predicate WaiterOk(q: Queue, w: Waiter) {
    if w.Returned? then q.auto || w.folder in q.approved
    else
      && w.chan < |q.chans|
      && match q.chans[w.chan].place
         case Queued(f) => f == w.folder
         case Held(a) => a < |q.approvers| && q.approvers[a].folder == w.folder && w.folder in q.approved
         case Closed => w.folder in q.approved
  }

  predicate Inv(q: Queue) {
    && (forall f :: f in q.waiting ==> f !in q.approved && AllAt(q, q.waiting[f], Queued(f)))
    && (forall a :: 0 <= a < |q.approvers| ==> AllAt(q, q.approvers[a].todo, Held(a)) && q.approvers[a].folder in q.approved)
    && (forall c :: 0 <= c < |q.chans| ==> ChanOk(q, c))
    && (forall w :: 0 <= w < |q.waiters| ==> WaiterOk(q, q.waiters[w]))
  }

  lemma WaitInv(q: Queue, f: string)
    requires Inv(q)
    ensures Inv(WaitStep(q, f))
  {
    var q' := WaitStep(q, f);
    if q.auto || f in q.approved {
      forall c | 0 <= c < |q'.chans|
        ensures ChanOk(q', c)
      {
        assert ChanOk(q, c);
      }
    } else {
      var c := |q.chans|;
      assert AllAt(q', q'.waiting[f], Queued(f));
      forall x | 0 <= x < |q'.chans|
        ensures ChanOk(q', x)
      {
        if x < c {
          assert ChanOk(q, x);
        } else {
          assert q'.waiting[f][|WaitingFor(q, f)|] == c;
        }
      }
    }
  }

  lemma ApproveInv(q: Queue, f: string)
    requires Inv(q)
    ensures Inv(ApproveStep(q, f))
  {
    var q' := ApproveStep(q, f);
    var mine := WaitingFor(q, f);
    assert forall c :: 0 <= c < |q.chans| && q.chans[c].place != Queued(f) ==> c !in mine;
    forall a | 0 <= a < |q'.approvers|
      ensures AllAt(q', q'.approvers[a].todo, Held(a)) && q'.approvers[a].folder in q'.approved
    {
      if a < |q.approvers| {
        assert AllAt(q, q.approvers[a].todo, Held(a));
      }
    }
    forall c | 0 <= c < |q'.chans|
      ensures ChanOk(q', c)
    {
      assert ChanOk(q, c);
    }
    forall w | 0 <= w < |q'.waiters|
      ensures WaiterOk(q', q'.waiters[w])
    {
      assert WaiterOk(q, q.waiters[w]);
      if q.waiters[w].Blocked? {
        assert ChanOk(q, q.waiters[w].chan);
      }
    }
  }

  lemma CloseChans(q: Queue, a: nat)
    requires Inv(q) && Enabled(q, CloseNext(a))
    ensures var q' := Next(q, CloseNext(a)); forall x :: 0 <= x < |q'.chans| ==> ChanOk(q', x)
  {
    var q' := Next(q, CloseNext(a));
    var c := q.approvers[a].todo[0];
    assert AllAt(q, q.approvers[a].todo, Held(a)) && ChanOk(q, c);
    forall x | 0 <= x < |q'.chans|
      ensures ChanOk(q', x)
    {
      assert ChanOk(q, x);
      if x != c && q.chans[x].place == Held(a) {
        var i :| 0 <= i < |q.approvers[a].todo| && q.approvers[a].todo[i] == x;
        assert q'.approvers[a].todo[i - 1] == x;
      }
    }
  }

  lemma CloseApprovers(q: Queue, a: nat)
    requires Inv(q) && Enabled(q, CloseNext(a))
    ensures var q' := Next(q, CloseNext(a));
            forall b :: 0 <= b < |q'.approvers| ==>
              AllAt(q', q'.approvers[b].todo, Held(b)) && q'.approvers[b].folder in q'.approved
  {
    var q' := Next(q, CloseNext(a));
    assert AllAt(q, q.approvers[a].todo, Held(a));
    forall b | 0 <= b < |q'.approvers|
      ensures AllAt(q', q'.approvers[b].todo, Held(b)) && q'.approvers[b].folder in q'.approved
    {
      assert AllAt(q, q.approvers[b].todo, Held(b));
    }
  }

  lemma CloseInv(q: Queue, a: nat)
    requires Inv(q) && Enabled(q, CloseNext(a))
    ensures Inv(Next(q, CloseNext(a)))
  {
    assert AllAt(q, q.approvers[a].todo, Held(a));
    assert ChanOk(q, q.approvers[a].todo[0]);
    CloseChans(q, a);
    CloseApprovers(q, a);
  }

  lemma StepInv(q: Queue, step: Step)
    requires Inv(q) && Enabled(q, step)
    ensures Inv(Next(q, step))
  {
    match step
    case Wait(f) => WaitInv(q, f);
    case Approve(f) => ApproveInv(q, f);
    case CloseNext(a) => CloseInv(q, a);
    case Wake(w) =>
      assert WaiterOk(q, q.waiters[w]) && ChanOk(q, q.waiters[w].chan);
      var q' := Next(q, step);
      forall c | 0 <= c < |q'.chans|
        ensures ChanOk(q', c)
      {
        assert ChanOk(q, c);
      }
  }

  lemma {:induction false} InvAlways(auto: bool, run: seq<Queue>, steps: seq<Step>, i: nat)
    requires Run(auto, run, steps) && i <= |steps|
    ensures Inv(run[i])
  {
    if i > 0 {
      InvAlways(auto, run, steps, i - 1);
      assert Linked(run, steps, i - 1);
      StepInv(run[i - 1], steps[i - 1]);
    }
  }

  lemma {:induction false} ModeStays(auto: bool, run: seq<Queue>, steps: seq<Step>, i: nat)
    requires Run(auto, run, steps) && i <= |steps|
    ensures run[i].auto == auto
  {
    if i > 0 {
      ModeStays(auto, run, steps, i - 1);
      assert Linked(run, steps, i - 1);
    }
  }

  // ---------------------------------------------------------------- no lost wakeup

  /** A running `Approve` of the waiter's folder still holds its channel to close. */
  predicate BeingReleased(q: Queue, w: Waiter)
    requires w.Blocked?
  {
    exists a :: 0 <= a < |q.approvers| && q.approvers[a].folder == w.folder && w.chan in q.approvers[a].todo
  }

  /** In every reachable state: no channel is closed twice; and a caller that is blocked on an approved folder
      can return now or is about to be released, while one on a folder that is not approved can do neither. */
  lemma NoLostWakeup(auto: bool, run: seq<Queue>, steps: seq<Step>, i: nat)
    requires Run(auto, run, steps) && i <= |steps|
    ensures var q := run[i];
            && (forall c :: 0 <= c < |q.chans| ==> q.chans[c].closings <= 1)
            && (forall w :: 0 <= w < |q.waiters| && q.waiters[w].Blocked? ==>
                  (q.waiters[w].folder in q.approved <==> IsClosed(q, q.waiters[w].chan) || BeingReleased(q, q.waiters[w])))
  {
    InvAlways(auto, run, steps, i);
    var q := run[i];
    forall c | 0 <= c < |q.chans|
      ensures q.chans[c].closings <= 1
    {
      assert ChanOk(q, c);
    }
    forall w | 0 <= w < |q.waiters| && q.waiters[w].Blocked?
      ensures q.waiters[w].folder in q.approved <==> IsClosed(q, q.waiters[w].chan) || BeingReleased(q, q.waiters[w])
    {
      var x := q.waiters[w];
      assert WaiterOk(q, x) && ChanOk(q, x.chan);
      if x.folder in q.approved && q.chans[x.chan].place.Held? {
        assert x.chan in q.approvers[q.chans[x.chan].place.approver].todo;
      }
    }
  }

  /** In ask_folder mode a caller returns only after its folder was approved. */
  lemma ReturnsOnlyWhenApproved(run: seq<Queue>, steps: seq<Step>, i: nat, w: nat)
    requires Run(false, run, steps) && i <= |steps| && w < |run[i].waiters| && run[i].waiters[w].Returned?
    ensures run[i].waiters[w].folder in run[i].approved
  {
    InvAlways(false, run, steps, i);
    ModeStays(false, run, steps, i);
    assert WaiterOk(run[i], run[i].waiters[w]);
  }

  /** In auto mode nobody ever waits. */
  lemma {:induction false} AutoNeverBlocks(run: seq<Queue>, steps: seq<Step>, i: nat)
    requires Run(true, run, steps) && i <= |steps|
    ensures run[i].waiting == map[] && run[i].chans == []
    ensures forall w :: 0 <= w < |run[i].waiters| ==> run[i].waiters[w].Returned?
  {
    ModeStays(true, run, steps, i);
    if i > 0 {
      AutoNeverBlocks(run, steps, i - 1);
      ModeStays(true, run, steps, i - 1);
      assert Linked(run, steps, i - 1);
    }
  }

  /** When no `Approve` is running and nobody is ready to return, the callers still blocked are exactly those of
      folders that have not been approved. */
  lemma AtRest(run: seq<Queue>, steps: seq<Step>, i: nat, w: nat)
    requires Run(false, run, steps) && i <= |steps| && w < |run[i].waiters|
    requires forall a :: 0 <= a < |run[i].approvers| ==> run[i].approvers[a].todo == []
    requires forall v :: 0 <= v < |run[i].waiters| ==> !Enabled(run[i], Wake(v))
    ensures run[i].waiters[w].Blocked? <==> run[i].waiters[w].folder !in run[i].approved
  {
    var q := run[i];
    NoLostWakeup(false, run, steps, i);
    assert !Enabled(q, Wake(w));
    if q.waiters[w].Returned? {
      ReturnsOnlyWhenApproved(run, steps, i, w);
    }
  }

  // ---------------------------------------------------------------- the code

  class Channel {
    var closed: bool

    constructor ()
      ensures !closed
    {
      closed := false;
    }
  }

  class ApprovalQueue {
    const auto: bool
    var approved: set<string>
    var waiters: map<string, seq<Channel>>

    /** No channel waits twice, and none that waits is closed: closing one again would panic. */
    ghost predicate Valid()
      reads this, set f, c | f in waiters && c in waiters[f] :: c
    {
      && (forall f :: f in waiters ==> f !in approved)
      && (forall f, c :: f in waiters && c in waiters[f] ==> !c.closed)
      && (forall f, i, j :: f in waiters && 0 <= i < j < |waiters[f]| ==> waiters[f][i] != waiters[f][j])
      && (forall f, g :: f in waiters && g in waiters && f != g ==> forall c :: c in waiters[f] ==> c !in waiters[g])
    }

    /** `Wait` up to the point where it blocks: `null` means that it returns at once. */
    method Enter(folder: string) returns (ch: Channel?)
      requires Valid()
      modifies this
      ensures Valid() && approved == old(approved)
      ensures ch == null <==> auto || folder in approved
      ensures ch == null ==> waiters == old(waiters)
      ensures ch != null ==>
                fresh(ch) && !ch.closed &&
                var c: Channel := ch;
                waiters == old(waiters)[folder := (if folder in old(waiters) then old(waiters)[folder] else []) + [c]]
    {
      if auto || folder in approved {
        return null;
      }
      var c := new Channel();
      waiters := waiters[folder := (if folder in waiters then waiters[folder] else []) + [c]];
      ch := c;
    }

    /** `Approve` with nothing in between: it closes exactly the channels of the folder. */
    method Release(folder: string)
      requires Valid()
      modifies this, if folder in waiters then set c | c in waiters[folder] else {}
      ensures Valid() && approved == old(approved) + {folder} && waiters == old(waiters) - {folder}
      ensures folder in old(waiters) ==> forall c :: c in old(waiters)[folder] ==> c.closed
    {
      approved := approved + {folder};
      var mine := if folder in waiters then waiters[folder] else [];
      waiters := waiters - {folder};
      for i := 0 to |mine|
        invariant approved == old(approved) + {folder} && waiters == old(waiters) - {folder}
        invariant forall j :: 0 <= j < |mine| ==> (mine[j].closed <==> j < i)
        invariant forall f, c :: f in waiters && c in waiters[f] ==> !c.closed
      {
        mine[i].closed := true;
      }
    }
  }
}
