/** A sync connection tunnelled through the relay: `virtualConn` and the path its frames take.
    The sender's `Write` strips the length, the relay forwards a DATA message, the receiving
    client packs the frame again and queues it, and `Read` hands out its bytes in any sizes. */
module Tunnel {
  import opened Frames

  const QUEUE_CAP := 256

  // ---------------------------------------------------------------- one end of a connection

  /** `closed` stands for the flag and for `closeCh`, which `Close` sets together. */
  datatype Conn = Conn(readBuf: seq<Byte>, incoming: seq<seq<Byte>>, closed: bool) {
    /** Every byte that has arrived and has not been read. */
    function Pending(): seq<Byte> {
      readBuf + Flatten(incoming)
    }
  }

  const FRESH_CONN := Conn([], [], false)

  function Flatten(chunks: seq<seq<Byte>>): seq<Byte> {
    if chunks == [] then [] else chunks[0] + Flatten(chunks[1..])
  }

  lemma {:induction false} FlattenAppend(a: seq<seq<Byte>>, b: seq<Byte>)
    ensures Flatten(a + [b]) == Flatten(a) + b
  {
    if a == [] {
      assert a + [b] == [b];
    } else {
      assert (a + [b])[1..] == a[1..] + [b];
      FlattenAppend(a[1..], b);
    }
  }

  function Min(a: nat, b: nat): nat {
    if a < b then a else b
  }

  /** The four lock sections and channel operations that change a connection. */
  function Take(c: Conn, room: nat): Conn {
    c.(readBuf := c.readBuf[Min(room, |c.readBuf|)..])
  }

  function Fetch(c: Conn): Conn
    requires c.incoming != []
  {
    c.(readBuf := c.readBuf + c.incoming[0], incoming := c.incoming[1..])
  }

  function Push(c: Conn, bytes: seq<Byte>): Conn {
    c.(incoming := c.incoming + [bytes])
  }

  function Shut(c: Conn): Conn {
    c.(closed := true)
  }

  datatype ReadStatus = Data | Eof | Parked

  datatype DeliverStatus = Queued | Dropped | Stuck

  class VirtualConn {
    var readBuf: seq<Byte>
    var incoming: seq<seq<Byte>>
    var closed: bool

    function State(): Conn
      reads this
    {
      Conn(readBuf, incoming, closed)
    }

    constructor ()
      ensures State() == FRESH_CONN
    {
      readBuf, incoming, closed := [], [], false;
    }

    /** `Read` with no other goroutine in between. `Parked` is the blocked `select`.
        Whatever the size of `b`, the bytes come out in the order they arrived, none twice
        and none missing. */
    method Read(b: array<Byte>) returns (n: nat, status: ReadStatus)
      modifies this, b
      ensures n <= b.Length && b[n..] == old(b[n..]) && closed == old(closed)
      ensures b[..n] + State().Pending() == old(State().Pending())
      ensures status.Data? && b.Length > 0 ==> n > 0
      ensures !status.Data? ==> n == 0
      ensures status.Eof? ==> old(closed) && readBuf == [] && State() == old(State())
      ensures status.Parked? ==> !closed && State().Pending() == []
      ensures old(readBuf) == [] && old(closed) ==> status.Eof?
      ensures old(readBuf) != [] ==> n == Min(b.Length, |old(readBuf)|) && incoming == old(incoming)
      ensures old(readBuf) == [] && !old(closed) && old(incoming) != [] && old(incoming)[0] != [] ==>
                n == Min(b.Length, |old(incoming)[0]|) && incoming == old(incoming)[1..]
    {
      ghost var before := State();
      while true
        invariant closed == before.closed && b[..] == old(b[..])
        invariant State().Pending() == before.Pending()
        invariant closed ==> State() == before
        invariant before.readBuf != [] ==> State() == before
        invariant before.readBuf == [] && before.incoming != [] && before.incoming[0] != [] ==>
                    State() == before || (readBuf == before.incoming[0] && incoming == before.incoming[1..])
        decreases |incoming|
      {
        if |readBuf| > 0 {
          n := Min(b.Length, |readBuf|);
          forall i | 0 <= i < n {
            b[i] := readBuf[i];
          }
          assert b[..n] == readBuf[..n];
          ghost var whole := readBuf;
          readBuf := readBuf[n..];
          assert whole == b[..n] + readBuf;
          return n, Data;
        }
        if closed {
          return 0, Eof;
        }
        if incoming == [] {
          return 0, Parked;
        }
        readBuf, incoming := readBuf + incoming[0], incoming[1..];
      }
    }

    /** `deliver`: re-frames a payload and queues it. `pick` is the choice `select` makes when both of its
        arms are ready, that is, when the connection is closed and the queue has room. `Stuck` is the blocked
        `select`: the queue of an open connection is full. */
    method Deliver(msgType: Byte, payload: seq<Byte>, pick: bool) returns (status: DeliverStatus)
      modifies this
      ensures status.Queued? <==> |old(incoming)| < 256 && (old(closed) ==> pick)
      ensures status.Dropped? <==> old(closed) && !status.Queued?
      ensures State() == if status.Queued? then Push(old(State()), Encode(Frame(msgType, payload))) else old(State())
      ensures status.Queued? ==> State().Pending() == old(State().Pending()) + Encode(Frame(msgType, payload))
    {
      if closed && (!pick || |incoming| >= QUEUE_CAP) {
        return Dropped;
      }
      if |incoming| >= QUEUE_CAP {
        return Stuck;
      }
      var frame := Encode(Frame(msgType, payload));
      FlattenAppend(incoming, frame);
      incoming := incoming + [frame];
      return Queued;
    }

    method Close()
      modifies this
      ensures State() == Shut(old(State()))
    {
      closed := true;
    }
  }

  // ---------------------------------------------------------------- the whole path

  /** `Write` keeps the type byte and what follows it; the length is rebuilt at the other end. */
  function Strip(b: seq<Byte>): Frame
    requires 5 <= |b|
  {
    Frame(b[4], b[5..])
  }

  /** Stripping and re-packing gives back the written bytes exactly for well-formed frames. */
  lemma RepackIff(b: seq<Byte>)
    requires 5 <= |b|
    ensures Encode(Strip(b)) == b <==> b[..4] == PutUint32((|b| - 4) % WORD)
  {
    assert b == b[..4] + [b[4]] + b[5..];
    var e := Encode(Strip(b));
    assert e[..4] == PutUint32((|b| - 4) % WORD);
  }

  /** The last five fields are history: what entered the queue, how many frames were lost, how many
      had entered before the first loss, how many `Read` took off the queue and how many of those
      after `Close`. `selecting` is the reader's position between releasing the mutex and its `select`. */
  datatype Path = Path(
    sent: seq<Frame>, uplink: seq<Frame>, downlink: seq<Frame>, conn: Conn, selecting: bool, returned: seq<Byte>,
    accepted: seq<Frame>, dropped: nat, sound: nat, fetched: nat, late: nat)

  const FRESH_PATH := Path([], [], [], FRESH_CONN, false, [], [], 0, 0, 0, 0)

  datatype Step =
    | Write(frame: Frame)
    | Forward
    | Accept
    | Drop
    | CloseConn
    | ReadTake(room: nat)
    | ReadPark
    | ReadFetch
    | ReadEof

  /** `Accept` and `Drop` are the two arms of `deliver`'s select: once the connection is closed both
      may be ready and Go picks either. The reader's select is the same. */
  predicate Enabled(p: Path, step: Step) {
    match step
    case Write(_) => true
    case Forward => p.uplink != []
    case Accept => p.downlink != [] && |p.conn.incoming| < QUEUE_CAP
    case Drop => p.downlink != [] && p.conn.closed
    case CloseConn => true
    case ReadTake(_) => !p.selecting && p.conn.readBuf != []
    case ReadPark => !p.selecting && p.conn.readBuf == [] && !p.conn.closed
    case ReadFetch => p.selecting && p.conn.incoming != []
    case ReadEof => p.conn.closed && (p.selecting || p.conn.readBuf == [])
  }

  function Next(p: Path, step: Step): Path
    requires Enabled(p, step)
  {
    match step
    case Write(f) => p.(sent := p.sent + [f], uplink := p.uplink + [Strip(Encode(f))])
    case Forward => p.(uplink := p.uplink[1..], downlink := p.downlink + [p.uplink[0]])
    case Accept =>
      p.(downlink := p.downlink[1..], conn := Push(p.conn, Encode(p.downlink[0])),
         accepted := p.accepted + [p.downlink[0]], sound := p.sound + if p.dropped == 0 then 1 else 0)
    case Drop => p.(downlink := p.downlink[1..], dropped := p.dropped + 1)
    case CloseConn => p.(conn := Shut(p.conn))
    case ReadTake(room) =>
      p.(conn := Take(p.conn, room), returned := p.returned + p.conn.readBuf[..Min(room, |p.conn.readBuf|)])
    case ReadPark => p.(selecting := true)
    case ReadFetch =>
      p.(conn := Fetch(p.conn), selecting := false, fetched := p.fetched + 1,
         late := p.late + if p.conn.closed then 1 else 0)
    case ReadEof => p.(selecting := false)
  }

  predicate Run(run: seq<Path>, steps: seq<Step>) {
    && |run| == |steps| + 1
    && run[0] == FRESH_PATH
    && forall i :: 0 <= i < |steps| ==> Enabled(run[i], steps[i]) && run[i + 1] == Next(run[i], steps[i])
  }

  /** Byte accounting: what was read, what is buffered and what is queued are the accepted frames, in order. */
  predicate Accounted(p: Path) {
    && p.fetched + |p.conn.incoming| == |p.accepted|
    && (forall i :: 0 <= i < |p.conn.incoming| ==> p.conn.incoming[i] == Encode(p.accepted[p.fetched + i]))
    && p.returned + p.conn.readBuf == EncodeAll(p.accepted[..p.fetched])
  }

  predicate AllIn(a: seq<Frame>, b: seq<Frame>) {
    forall f :: f in a ==> f in b
  }

  lemma AllInParts(a: seq<Frame>, b: seq<Frame>, c: seq<Frame>)
    ensures AllIn(a + b, c) <==> AllIn(a, c) && AllIn(b, c)
  {
    assert forall f :: f in a + b <==> f in a || f in b;
  }

  /** After a loss, the frame at position `sound` is missing and everything else accepted or still on
      the way was written after it. */
  predicate Lossy(p: Path) {
    && p.sound < |p.sent|
    && p.sound <= |p.accepted|
    && p.accepted[..p.sound] == p.sent[..p.sound]
    && AllIn(p.accepted[p.sound..], p.sent[p.sound + 1..])
    && AllIn(p.downlink + p.uplink, p.sent[p.sound + 1..])
  }

  predicate Inv(p: Path) {
    && Accounted(p)
    && (p.dropped == 0 ==> p.sent == p.accepted + p.downlink + p.uplink && p.sound == |p.accepted|)
    && (p.dropped > 0 ==> p.conn.closed && Lossy(p))
    && (p.conn.closed || p.late == 0)
    && p.late <= 1 && (p.late == 1 ==> !p.selecting)
    && p.late <= p.fetched <= p.sound + p.late
  }

  lemma FetchAccounted(p: Path)
    requires Accounted(p) && Enabled(p, ReadFetch)
    ensures Accounted(Next(p, ReadFetch))
  {
    var q := Next(p, ReadFetch);
    var f := p.accepted[p.fetched];
    assert p.accepted[..q.fetched] == p.accepted[..p.fetched] + [f];
    EncodeAllAppend(p.accepted[..p.fetched], [f]);
    assert EncodeAll([f]) == Encode(f) + [];
    assert q.returned + q.conn.readBuf == (p.returned + p.conn.readBuf) + Encode(f);
  }

  lemma AccountedStep(p: Path, step: Step)
    requires Accounted(p) && Enabled(p, step)
    ensures Accounted(Next(p, step))
  {
    var q := Next(p, step);
    match step
    case Accept =>
      assert q.accepted[..q.fetched] == p.accepted[..p.fetched];
    case ReadTake(room) =>
      assert q.returned + q.conn.readBuf == p.returned + p.conn.readBuf;
    case ReadFetch => FetchAccounted(p);
    case _ =>
  }

  lemma FirstLoss(p: Path)
    requires Inv(p) && p.dropped == 0 && Enabled(p, Drop)
    ensures Lossy(Next(p, Drop))
  {
    var q := Next(p, Drop);
    assert p.sent == p.accepted + ([p.downlink[0]] + (q.downlink + q.uplink));
    assert p.sent[p.sound + 1..] == q.downlink + q.uplink;
  }

  lemma LossyDrop(p: Path)
    requires Lossy(p) && Enabled(p, Drop)
    ensures Lossy(Next(p, Drop))
  {
    var q := Next(p, Drop);
    assert p.downlink + p.uplink == [p.downlink[0]] + (q.downlink + q.uplink);
    AllInParts([p.downlink[0]], q.downlink + q.uplink, p.sent[p.sound + 1..]);
  }

  lemma LossyForward(p: Path)
    requires Lossy(p) && Enabled(p, Forward)
    ensures Lossy(Next(p, Forward))
  {
    var q := Next(p, Forward);
    assert q.downlink + q.uplink == p.downlink + p.uplink;
  }

  lemma LossyStep(p: Path, step: Step)
    requires Inv(p) && Enabled(p, step) && Next(p, step).dropped > 0
    ensures Lossy(Next(p, step))
  {
    if p.dropped == 0 {
      FirstLoss(p);
    } else {
      match step
      case Write(f) => LossyWrite(p, f);
      case Forward => LossyForward(p);
      case Accept => LossyAccept(p);
      case Drop => LossyDrop(p);
      case _ =>
    }
  }

  lemma LossyWrite(p: Path, f: Frame)
    requires Lossy(p)
    ensures Lossy(Next(p, Write(f)))
  {
    var q := Next(p, Write(f));
    assert Strip(Encode(f)) == f;
    assert q.sent[p.sound + 1..] == p.sent[p.sound + 1..] + [f];
    assert q.downlink + q.uplink == p.downlink + p.uplink + [f];
  }

  lemma LossyAccept(p: Path)
    requires Lossy(p) && p.dropped > 0 && Enabled(p, Accept)
    ensures Lossy(Next(p, Accept))
  {
    var q := Next(p, Accept);
    var later := p.sent[p.sound + 1..];
    assert p.downlink + p.uplink == [p.downlink[0]] + (q.downlink + q.uplink);
    AllInParts([p.downlink[0]], q.downlink + q.uplink, later);
    assert q.accepted[p.sound..] == p.accepted[p.sound..] + [p.downlink[0]];
    AllInParts(p.accepted[p.sound..], [p.downlink[0]], later);
  }

  lemma LosslessStep(p: Path, step: Step)
    requires Inv(p) && Enabled(p, step) && Next(p, step).dropped == 0
    ensures var q := Next(p, step); q.sent == q.accepted + q.downlink + q.uplink && q.sound == |q.accepted|
  {
    var q := Next(p, step);
    match step
    case Write(f) =>
      assert Strip(Encode(f)) == f;
    case Accept =>
      assert p.downlink == [p.downlink[0]] + q.downlink;
    case _ =>
  }

  lemma InvStep(p: Path, step: Step)
    requires Inv(p) && Enabled(p, step)
    ensures Inv(Next(p, step))
  {
    AccountedStep(p, step);
    if Next(p, step).dropped == 0 {
      LosslessStep(p, step);
    } else {
      LossyStep(p, step);
    }
  }

  lemma {:induction false} Reachable(run: seq<Path>, steps: seq<Step>)
    requires Run(run, steps)
    ensures Inv(run[|steps|])
  {
    if steps != [] {
      var n := |steps| - 1;
      Reachable(run[..n + 1], steps[..n]);
      InvStep(run[n], steps[n]);
    }
  }

  // ---------------------------------------------------------------- what the reader sees

  lemma {:induction false} EncodeAllMonotone(a: seq<Frame>, b: seq<Frame>)
    requires a <= b
    ensures EncodeAll(a) <= EncodeAll(b)
  {
    assert b == a + b[|a|..];
    EncodeAllAppend(a, b[|a|..]);
  }

  /** In every run, before any frame is lost, the tunnel is a byte stream: what the reader has is a
      prefix of what a direct connection would carry, all of it once nothing is left on the way, and
      the frames it can parse are a prefix of the frames written. Nothing is lost before `Close`. */
  lemma TunnelRefinesStream(run: seq<Path>, steps: seq<Step>)
    requires Run(run, steps)
    ensures var p := run[|steps|];
            && (!p.conn.closed ==> p.dropped == 0)
            && (p.dropped == 0 ==> p.returned <= EncodeAll(p.sent))
            && (p.dropped == 0 && p.uplink == p.downlink == [] && p.conn.Pending() == [] ==>
                  p.returned == EncodeAll(p.sent))
            && (p.dropped == 0 && (forall f :: f in p.sent ==> Admissible(f)) ==>
                  ParseAll(p.returned).0 <= p.sent)
            && (p.dropped == 0 && p.uplink == p.downlink == [] && p.conn.Pending() == []
                && (forall f :: f in p.sent ==> Admissible(f)) ==>
                  ParseAll(p.returned) == (p.sent, []))
  {
    Reachable(run, steps);
    var p := run[|steps|];
    if p.dropped == 0 {
      assert p.accepted[..p.fetched] <= p.sent;
      EncodeAllMonotone(p.accepted[..p.fetched], p.sent);
      assert p.returned <= p.returned + p.conn.readBuf;
      if p.conn.Pending() == [] && p.uplink == p.downlink == [] {
        PendingNothing(p);
        assert p.accepted[..p.fetched] == p.accepted == p.sent;
      }
      if forall f :: f in p.sent ==> Admissible(f) {
        ParseOfPrefix(p.sent, p.returned);
        ParseOfWhole(p.sent);
      }
    }
  }

  lemma PendingNothing(p: Path)
    requires Accounted(p)
    ensures p.conn.incoming != [] ==> p.conn.Pending() != []
  {
    if p.conn.incoming != [] {
      assert p.conn.incoming[0] == Encode(p.accepted[p.fetched]);
      assert |p.conn.Pending()| >= |p.conn.incoming[0]|;
    }
  }

  /** After `Close` the stream may skip frames, but by one frame only: all that `Read` has handed out,
      except for at most one frame fetched after `Close`, is still an unbroken prefix of what was written. */
  lemma OneFrameAfterClose(run: seq<Path>, steps: seq<Step>)
    requires Run(run, steps)
    ensures var p := run[|steps|];
            && p.late <= 1 && (p.late == 1 ==> p.conn.closed)
            && p.late <= p.fetched <= |p.accepted|
            && p.returned <= EncodeAll(p.accepted[..p.fetched])
            && p.accepted[..p.fetched - p.late] <= p.sent
  {
    Reachable(run, steps);
    var p := run[|steps|];
    assert p.returned <= p.returned + p.conn.readBuf;
    var k := p.fetched - p.late;
    assert k <= p.sound;
    if p.dropped > 0 {
      assert p.accepted[..k] == p.accepted[..p.sound][..k] == p.sent[..k];
    }
  }

  // ---------------------------------------------------------------- when closing is clean

  predicate Legal(p: Path, steps: seq<Step>)
    decreases |steps|
  {
    steps == [] || (Enabled(p, steps[0]) && Legal(Next(p, steps[0]), steps[1..]))
  }

  function Play(p: Path, steps: seq<Step>): Path
    requires Legal(p, steps)
    decreases |steps|
  {
    if steps == [] then p else Play(Next(p, steps[0]), steps[1..])
  }

  lemma {:induction false} PlayAppend(p: Path, a: seq<Step>, b: seq<Step>)
    requires Legal(p, a) && Legal(Play(p, a), b)
    ensures Legal(p, a + b) && Play(p, a + b) == Play(Play(p, a), b)
    decreases |a|
  {
    if a == [] {
      assert a + b == b;
    } else {
      assert (a + b)[1..] == a[1..] + b;
      PlayAppend(Next(p, a[0]), a[1..], b);
    }
  }

  lemma One(p: Path, step: Step)
    requires Enabled(p, step)
    ensures Legal(p, [step]) && Play(p, [step]) == Next(p, step)
  {
    assert [step][1..] == [];
  }

  /** What has been read is the beginning of what was written. */
  predicate Unbroken(p: Path) {
    p.returned <= EncodeAll(p.sent)
  }

  /** The reader waits in its `select` on an empty queue. */
  predicate Starved(p: Path) {
    p.selecting && p.conn.incoming == []
  }

  /** Closed, and all the reader can still fetch is among the first `k` accepted frames, none of them out of place. */
  predicate Settled(p: Path, k: nat) {
    && p.conn.closed && Accounted(p)
    && p.fetched + (if p.selecting then 1 else 0) <= k <= |p.accepted|
    && p.accepted[..k] <= p.sent
  }

  lemma SettledStep(p: Path, step: Step, k: nat)
    requires Settled(p, k) && Enabled(p, step)
    ensures Settled(Next(p, step), k)
  {
    var q := Next(p, step);
    AccountedStep(p, step);
    assert q.accepted[..k] == p.accepted[..k];
  }

  lemma {:induction false} SettledStays(p: Path, steps: seq<Step>, k: nat)
    requires Settled(p, k) && Legal(p, steps)
    ensures Unbroken(Play(p, steps))
    decreases |steps|
  {
    if steps == [] {
      assert p.returned <= p.returned + p.conn.readBuf;
      assert p.accepted[..p.fetched] == p.accepted[..k][..p.fetched];
      EncodeAllMonotone(p.accepted[..p.fetched], p.sent);
    } else {
      SettledStep(p, steps[0], k);
      SettledStays(Next(p, steps[0]), steps[1..], k);
    }
  }

  /** Everything on the uplink reaches the other client. */
  lemma {:induction false} ForwardAll(p: Path) returns (steps: seq<Step>)
    ensures Legal(p, steps)
    ensures Play(p, steps) == p.(uplink := [], downlink := p.downlink + p.uplink)
    decreases |p.uplink|
  {
    if p.uplink == [] {
      steps := [];
    } else {
      var q := Next(p, Forward);
      assert q.downlink + q.uplink == p.downlink + p.uplink;
      var rest := ForwardAll(q);
      steps := [Forward] + rest;
    }
  }

  /** A closed connection loses all frames that have arrived but the last. */
  lemma {:induction false} DropAllButLast(p: Path) returns (steps: seq<Step>)
    requires p.conn.closed && p.downlink != []
    ensures Legal(p, steps)
    ensures Play(p, steps) == p.(downlink := [p.downlink[|p.downlink| - 1]], dropped := p.dropped + |p.downlink| - 1)
    decreases |p.downlink|
  {
    if |p.downlink| == 1 {
      steps := [];
    } else {
      var rest := DropAllButLast(Next(p, Drop));
      steps := [Drop] + rest;
    }
  }

  /** The last frame on its way is accepted, fetched and read while all before it are lost. */
  lemma LastOneThrough(p: Path) returns (steps: seq<Step>)
    requires p.conn == Conn([], [], true) && p.selecting && p.downlink + p.uplink != []
    ensures Legal(p, steps)
    ensures var d := p.downlink + p.uplink;
            Play(p, steps).returned == p.returned + Encode(d[|d| - 1]) && Play(p, steps).sent == p.sent
  {
    var a := ForwardAll(p);
    var p1 := Play(p, a);
    var b := DropAllButLast(p1);
    PlayAppend(p, a, b);
    var p2 := Play(p1, b);
    var e := Encode(p2.downlink[0]);
    var p3 := Next(p2, Accept);
    assert p3.conn == Conn([], [e], true);
    var p4 := Next(p3, ReadFetch);
    assert p4.conn == Conn(e, [], true);
    var p5 := Next(p4, ReadTake(|e|));
    assert e[..|e|] == e;
    var c := [Accept, ReadFetch, ReadTake(|e|)];
    assert c[1..] == [ReadFetch, ReadTake(|e|)] && c[1..][1..] == [ReadTake(|e|)];
    One(p4, ReadTake(|e|));
    assert Legal(p3, c[1..]) && Play(p3, c[1..]) == p5;
    assert Legal(p2, c) && Play(p2, c) == p5;
    PlayAppend(p, a + b, c);
    steps := a + b + c;
  }

  /** A frame of another type in the place of the first one that was lost shows in the bytes. */
  lemma WrongFrame(acc: seq<Frame>, later: seq<Frame>, g: Frame)
    requires later != [] && later[0].msgType != g.msgType
    ensures !(EncodeAll(acc) + Encode(g) <= EncodeAll(acc + later))
  {
    EncodeAllAppend(acc, later);
    var n := |EncodeAll(acc)|;
    assert EncodeAll(acc + later)[n + 4] == EncodeAll(later)[4] == Encode(later[0])[4] == later[0].msgType;
    assert (EncodeAll(acc) + Encode(g))[n + 4] == Encode(g)[4] == g.msgType;
  }

  /** A written frame goes to the end of what is on its way. */
  lemma WriteAppends(q: Path, f: Frame)
    ensures Legal(q, [Write(f)])
    ensures Play(q, [Write(f)]) == q.(sent := q.sent + [f], uplink := q.uplink + [f])
    ensures q.downlink + (q.uplink + [f]) == q.downlink + q.uplink + [f]
  {
    One(q, Write(f));
    assert Strip(Encode(f)) == f;
  }

  /** Something is on its way, after a write if need be, and then one more frame, of another type than the first. */
  lemma TwoOnTheWay(q: Path) returns (steps: seq<Step>, g: Frame)
    ensures Legal(q, steps)
    ensures var d, e := q.downlink + q.uplink, Play(q, steps).downlink + Play(q, steps).uplink;
            && |e| >= 2 && e[|e| - 1] == g && e[0].msgType != g.msgType
            && d <= e && Play(q, steps).sent == q.sent + e[|d|..]
    ensures Play(q, steps).conn == q.conn && Play(q, steps).selecting == q.selecting
    ensures Play(q, steps).returned == q.returned && Play(q, steps).accepted == q.accepted
  {
    var d := q.downlink + q.uplink;
    if d == [] {
      var f := Frame(0, []);
      g := Frame(1, []);
      WriteAppends(q, f);
      var q1 := Play(q, [Write(f)]);
      WriteAppends(q1, g);
      PlayAppend(q, [Write(f)], [Write(g)]);
      steps := [Write(f)] + [Write(g)];
      assert q1.downlink + (q1.uplink + [g]) == [f, g];
      assert q.sent + [f] + [g] == q.sent + [f, g];
    } else {
      g := Frame(if d[0].msgType == 0 then 1 else 0, []);
      WriteAppends(q, g);
      steps := [Write(g)];
      assert (d + [g])[|d|..] == [g];
    }
  }

  /** What the reader of a starved connection has handed out is all that was accepted. */
  lemma StarvedHasRead(p: Path)
    requires Inv(p) && !p.conn.closed && Starved(p) && p.conn.readBuf == []
    ensures p.returned == EncodeAll(p.accepted) && p.sent == p.accepted + (p.downlink + p.uplink)
  {
    assert p.accepted[..p.fetched] == p.accepted;
  }

  lemma StarvedBreaks(p: Path) returns (steps: seq<Step>)
    requires Inv(p) && !p.conn.closed && Starved(p) && p.conn.readBuf == []
    ensures Legal(Next(p, CloseConn), steps) && !Unbroken(Play(Next(p, CloseConn), steps))
  {
    var q := Next(p, CloseConn);
    var a, g := TwoOnTheWay(q);
    var q2 := Play(q, a);
    var later := q2.downlink + q2.uplink;
    var b := LastOneThrough(q2);
    PlayAppend(q, a, b);
    steps := a + b;
    StarvedHasRead(p);
    assert q2.sent == p.accepted + later;
    WrongFrame(p.accepted, later, g);
  }

  /** A waiting reader has handed out all it had fetched. */
  lemma {:induction false} WaitsEmpty(run: seq<Path>, steps: seq<Step>)
    requires Run(run, steps) && run[|steps|].selecting
    ensures run[|steps|].conn.readBuf == []
  {
    if steps != [] {
      var n := |steps| - 1;
      if run[n].selecting {
        WaitsEmpty(run[..n + 1], steps[..n]);
      }
    }
  }

  /** Closing an open connection keeps the stream unbroken, however things go on, exactly when its reader is not
      waiting on an empty queue at that moment. */
  lemma CloseIsCleanIff(run: seq<Path>, steps: seq<Step>)
    requires Run(run, steps) && !run[|steps|].conn.closed
    ensures var q := Next(run[|steps|], CloseConn);
            (forall more :: Legal(q, more) ==> Unbroken(Play(q, more))) <==> !Starved(run[|steps|])
  {
    Reachable(run, steps);
    var p := run[|steps|];
    var q := Next(p, CloseConn);
    if Starved(p) {
      WaitsEmpty(run, steps);
      var more := StarvedBreaks(p);
    } else {
      assert p.accepted[..|p.accepted|] == p.accepted;
      forall more | Legal(q, more)
        ensures Unbroken(Play(q, more))
      {
        SettledStays(q, more, |p.accepted|);
      }
    }
  }

  /** The break does happen: a reader on its way into `select` when another goroutine closes the connection
      can miss the first frame and still be handed the second. */
  lemma CloseRaceSkipsAFrame() returns (run: seq<Path>, steps: seq<Step>)
    ensures Run(run, steps)
    ensures var p := run[|steps|]; !(p.returned <= EncodeAll(p.sent))
  {
    var f, g := Frame(4, [1]), Frame(4, [2]);
    run, steps := [FRESH_PATH], [];
    run, steps := Extend(run, steps, Write(f));
    run, steps := Extend(run, steps, Write(g));
    run, steps := Extend(run, steps, Forward);
    run, steps := Extend(run, steps, Forward);
    run, steps := Extend(run, steps, ReadPark);
    run, steps := Extend(run, steps, CloseConn);
    run, steps := Extend(run, steps, Drop);
    run, steps := Extend(run, steps, Accept);
    run, steps := Extend(run, steps, ReadFetch);
    run, steps := Extend(run, steps, ReadTake(6));
    var p := run[|steps|];
    assert p.returned[5] == 2;
    assert EncodeAll([f, g])[5] == 1;
  }

  lemma Extend(run: seq<Path>, steps: seq<Step>, step: Step) returns (run': seq<Path>, steps': seq<Step>)
    requires Run(run, steps) && Enabled(run[|steps|], step)
    ensures Run(run', steps') && |steps'| == |steps| + 1 && run'[|steps'|] == Next(run[|steps|], step)
  {
    run', steps' := run + [Next(run[|steps|], step)], steps + [step];
  }
}
