/** One provider and one consumer on one connection: the NEED/CHUNK exchange as a system of steps over two
    FIFO channels. Manifests, pings and hellos may be put on either channel at any moment by the other
    goroutines of either side; the consumer drops whatever is not the chunk it is waiting for. A chunk whose frame is
    larger than the reader accepts is written all the same, and ends the connection when it is read. */
module Transfer {
  import opened Frames

  type Bytes = seq<int>

  datatype Msg =
    | Hello
    | Manifest(paths: seq<string>)
    | Need(paths: seq<string>)
    | Chunk(path: string, data: Bytes, final: bool)
    | ApplyOk(path: string)
    | Ping

  datatype Sent = Sent(path: string, data: Bytes)

  /** What the sender can do for a NEED: `statable` are the paths `os.Stat` finds, `ignored` holds of those
      its own ignore list hides. Anything it can read, it can stat. `chunkSize` is the length of the JSON text of
      the chunk of a path with some content. */
  datatype World = World(ignored: string -> bool, statable: set<string>, readable: set<string>, chunkSize: (string, Bytes) -> nat)

  predicate Sane(w: World) {
    w.readable <= w.statable
  }

  predicate Sendable(w: World, p: string) {
    p in w.readable && !w.ignored(p)
  }

  /** The frame of the chunk stays within what `ReadFrame` accepts. */
  predicate Fits(w: World, c: Sent) {
    1 + w.chunkSize(c.path, c.data) <= MAX_FRAME
  }

  function Filter(w: World, ps: seq<string>): seq<string> {
    if ps == [] then []
    else (if Sendable(w, ps[0]) then [ps[0]] else []) + Filter(w, ps[1..])
  }

  /** `serving` is what the provider's `sendFiles` has left of the NEED it is answering. The consumer is inside
      `receiveFile` for `needs[next]`, or idle when `next` is past the end. `sent` and `installed` are the
      history of the current session. `up` is false once a read has failed and the connection has been dropped. */
  datatype Link = Link(
    content: map<string, Bytes>, toConsumer: seq<Msg>, toProvider: seq<Msg>,
    serving: seq<string>, needs: seq<string>, next: nat, sent: seq<Sent>, installed: seq<Sent>,
    up: bool)

  predicate Receiving(l: Link) {
    l.next < |l.needs|
  }

  predicate Initial(w: World, l: Link) {
    && l.content.Keys == w.readable
    && l.toConsumer == l.toProvider == [] && l.serving == l.needs == [] && l.next == 0
    && l.sent == l.installed == [] && l.up
  }

  datatype Step =
    | Inject(toConsumer: bool, msg: Msg)
    | Edit(path: string, data: Bytes)
    | ProviderRead
    | ProviderSend
    | ConsumerRead(wanted: seq<string>)

  /** The steps of the two read loops and of `sendFiles`, as opposed to what happens around them. */
  predicate Internal(step: Step) {
    step.ProviderRead? || step.ProviderSend? || step.ConsumerRead?
  }

  /** `wanted` is what `applyManifest` decides to ask for when it is a manifest's turn. */
  predicate Enabled(l: Link, step: Step) {
    match step
    case Inject(_, msg) => l.up && (msg.Hello? || msg.Manifest? || msg.Ping?)
    case Edit(p, _) => p in l.content
    case ProviderRead => l.up && l.serving == [] && l.toProvider != []
    case ProviderSend => l.up && l.serving != []
    case ConsumerRead(_) => l.up && l.toConsumer != []
  }

  function Next(w: World, l: Link, step: Step): Link
    requires Enabled(l, step) && l.content.Keys == w.readable
  {
    match step
    case Inject(toConsumer, msg) =>
      if toConsumer then l.(toConsumer := l.toConsumer + [msg]) else l.(toProvider := l.toProvider + [msg])
    case Edit(p, data) => l.(content := l.content[p := data])
    case ProviderRead => ProviderReads(w, l)
    case ProviderSend =>
      var p := l.serving[0];
      var l1 := l.(serving := l.serving[1..]);
      if Sendable(w, p) then
        l1.(toConsumer := l.toConsumer + [Chunk(p, l.content[p], true)], sent := l.sent + [Sent(p, l.content[p])])
      else l1
    case ConsumerRead(wanted) => if Oversized(w, l.toConsumer[0]) then Break(l) else ConsumerReads(l, wanted)
  }

  predicate Oversized(w: World, m: Msg) {
    m.Chunk? && !Fits(w, Sent(m.path, m.data))
  }

  /** `ReadFrame` refuses the size; the read after it takes the text for a length and is refused too. */
  function Break(l: Link): Link
    requires l.toConsumer != []
  {
    l.(toConsumer := l.toConsumer[1..], up := false)
  }

  function ProviderReads(w: World, l: Link): Link
    requires l.toProvider != []
  {
    var l1 := l.(toProvider := l.toProvider[1..]);
    match l.toProvider[0]
    case Need(paths) =>
      if exists p :: p in paths && p in w.statable && !w.ignored(p) then l1.(serving := paths) else l1
    case Ping => l1.(toConsumer := l.toConsumer + [Ping])
    case _ => l1
  }

  function ConsumerReads(l: Link, wanted: seq<string>): Link
    requires l.toConsumer != []
  {
    var m := l.toConsumer[0];
    var l1 := l.(toConsumer := l.toConsumer[1..]);
    if Receiving(l) then
      if m.Chunk? && m.final && m.path == l.needs[l.next] then
        l1.(next := l.next + 1, installed := l.installed + [Sent(m.path, m.data)],
            toProvider := l.toProvider + [ApplyOk(m.path)])
      else l1
    else
      match m
      case Manifest(_) =>
        if wanted == [] then l1
        else l1.(needs := wanted, next := 0, sent := [], installed := [], toProvider := l.toProvider + [Need(wanted)])
      case Ping => l1.(toProvider := l.toProvider + [Ping])
      case _ => l1
  }

  predicate Linked(w: World, run: seq<Link>, steps: seq<Step>, i: nat)
    requires |run| == |steps| + 1 && i < |steps|
  {
    run[i].content.Keys == w.readable && Enabled(run[i], steps[i]) && run[i + 1] == Next(w, run[i], steps[i])
  }

  /** A stretch of execution from any state. */
  predicate Path(w: World, run: seq<Link>, steps: seq<Step>) {
    && |run| == |steps| + 1
    && forall i :: 0 <= i < |steps| ==> Linked(w, run, steps, i)
  }

  predicate Run(w: World, run: seq<Link>, steps: seq<Step>) {
    Sane(w) && Path(w, run, steps) && Initial(w, run[0])
  }

  // ---------------------------------------------------------------- the transfer invariant

  function Chunks(msgs: seq<Msg>): seq<Sent> {
    if msgs == [] then []
    else (if msgs[0].Chunk? then [Sent(msgs[0].path, msgs[0].data)] else []) + Chunks(msgs[1..])
  }

  predicate AllFinal(msgs: seq<Msg>) {
    msgs == [] || ((msgs[0].Chunk? ==> msgs[0].final) && AllFinal(msgs[1..]))
  }

  /** The NEEDs on a channel. */
  function Needs(msgs: seq<Msg>): seq<seq<string>> {
    if msgs == [] then []
    else (if msgs[0].Need? then [msgs[0].paths] else []) + Needs(msgs[1..])
  }

  function PathsOf(chunks: seq<Sent>): (r: seq<string>)
    ensures |r| == |chunks|
  {
    seq(|chunks|, i requires 0 <= i < |chunks| => chunks[i].path)
  }

  /** The paths that are still to arrive: the chunks in flight, then what the provider has yet to send. */
  function Coming(w: World, l: Link): seq<string> {
    PathsOf(Chunks(l.toConsumer)) + Filter(w, if Needs(l.toProvider) != [] then l.needs else l.serving)
  }

  predicate Blocked(w: World, l: Link) {
    Receiving(l) && !Sendable(w, l.needs[l.next])
  }

  predicate Suffix<T(==)>(a: seq<T>, b: seq<T>) {
    |a| <= |b| && a == b[|b| - |a|..]
  }

  /** At most one NEED is on its way, that of this session, and nothing has been sent for it. */
  predicate NeedOk(l: Link) {
    && l.next <= |l.needs|
    && Suffix(l.serving, l.needs)
    && (Needs(l.toProvider) == [] ||
        (&& Needs(l.toProvider) == [l.needs] && Receiving(l) && l.next == 0
         && l.serving == [] && Chunks(l.toConsumer) == [] && l.sent == []))
    && (!Receiving(l) ==> l.serving == [])
  }

  predicate DoneOk(w: World, l: Link)
    requires l.next <= |l.needs|
  {
    && (forall i :: 0 <= i < l.next ==> Sendable(w, l.needs[i]))
    && PathsOf(l.installed) == l.needs[..l.next]
  }

  /** Until the consumer reaches a path the provider cannot send, what is coming is exactly what is left to
      install; from then on it is a tail of it. */
  predicate FlowOk(w: World, l: Link)
    requires l.next <= |l.needs|
  {
    && AllFinal(l.toConsumer)
    && if Blocked(w, l)
       then Suffix(Coming(w, l), Filter(w, l.needs[l.next..])) && l.installed <= l.sent
       else Coming(w, l) == Filter(w, l.needs[l.next..]) && l.sent == l.installed + Chunks(l.toConsumer)
  }

  predicate Core(w: World, l: Link) {
    l.content.Keys == w.readable && NeedOk(l) && DoneOk(w, l) && FlowOk(w, l)
  }

  /** What has been read of what was sent was not too large, and what was installed has been read. */
  predicate Fitted(w: World, l: Link) {
    Flying(w, l.sent, Chunks(l.toConsumer), |l.installed|)
  }

  predicate Flying(w: World, sent: seq<Sent>, flying: seq<Sent>, done: nat) {
    var k := |sent| - |flying|;
    && done <= k && flying == sent[k..]
    && forall i :: 0 <= i < k ==> Fits(w, sent[i])
  }

  /** How many of the chunks come before the first one that is too large. */
  function FitCount(w: World, cs: seq<Sent>): (n: nat)
    ensures n <= |cs|
    ensures forall i :: 0 <= i < n ==> Fits(w, cs[i])
    ensures n < |cs| ==> !Fits(w, cs[n])
  {
    if cs == [] || !Fits(w, cs[0]) then 0 else 1 + FitCount(w, cs[1..])
  }

  /** The connection was dropped over a chunk that is too large: the one that was waited for, unless the consumer was
      already waiting for a path that cannot be sent. */
  predicate Broken(w: World, l: Link) {
    && l.content.Keys == w.readable && l.next <= |l.needs| && DoneOk(w, l)
    && l.installed <= l.sent && FitCount(w, l.sent) < |l.sent| && l.next <= FitCount(w, l.sent)
    && Receiving(l)
    && (!Blocked(w, l) ==> l.next == FitCount(w, l.sent) && l.sent[l.next].path == l.needs[l.next])
  }

  predicate Inv(w: World, l: Link) {
    if l.up then Core(w, l) && Fitted(w, l) else Broken(w, l)
  }

  lemma Assoc<T>(a: seq<T>, b: seq<T>, c: seq<T>)
    ensures a + (b + c) == (a + b) + c
  {
  }

  lemma {:induction false} ChunksSnoc(msgs: seq<Msg>, m: Msg)
    ensures Chunks(msgs + [m]) == Chunks(msgs) + Chunks([m])
  {
    if msgs == [] {
      assert msgs + [m] == [m];
    } else {
      var tail := msgs[1..];
      assert (msgs + [m])[1..] == tail + [m];
      ChunksSnoc(tail, m);
      Assoc(if msgs[0].Chunk? then [Sent(msgs[0].path, msgs[0].data)] else [], Chunks(tail), Chunks([m]));
    }
  }

  lemma {:induction false} NeedsSnoc(msgs: seq<Msg>, m: Msg)
    ensures Needs(msgs + [m]) == Needs(msgs) + Needs([m])
  {
    if msgs == [] {
      assert msgs + [m] == [m];
    } else {
      var tail := msgs[1..];
      assert (msgs + [m])[1..] == tail + [m];
      NeedsSnoc(tail, m);
      Assoc(if msgs[0].Need? then [msgs[0].paths] else [], Needs(tail), Needs([m]));
    }
  }

  lemma {:induction false} AllFinalSnoc(msgs: seq<Msg>, m: Msg)
    ensures AllFinal(msgs + [m]) <==> AllFinal(msgs) && (m.Chunk? ==> m.final)
  {
    if msgs == [] {
      assert msgs + [m] == [m] && [m][1..] == [];
    } else {
      assert (msgs + [m])[1..] == msgs[1..] + [m];
      AllFinalSnoc(msgs[1..], m);
    }
  }

  lemma Snoc(msgs: seq<Msg>, m: Msg)
    ensures Chunks(msgs + [m]) == Chunks(msgs) + if m.Chunk? then [Sent(m.path, m.data)] else []
    ensures Needs(msgs + [m]) == Needs(msgs) + if m.Need? then [m.paths] else []
    ensures AllFinal(msgs + [m]) <==> AllFinal(msgs) && (m.Chunk? ==> m.final)
  {
    assert [m][1..] == [];
    ChunksSnoc(msgs, m);
    NeedsSnoc(msgs, m);
    AllFinalSnoc(msgs, m);
  }

  lemma {:induction false} FilterSendable(w: World, ps: seq<string>)
    ensures forall i :: 0 <= i < |Filter(w, ps)| ==> Sendable(w, Filter(w, ps)[i])
    ensures Filter(w, ps) == [] <==> (forall i :: 0 <= i < |ps| ==> !Sendable(w, ps[i]))
  {
    if ps != [] {
      FilterSendable(w, ps[1..]);
      assert forall i :: 1 <= i < |ps| ==> ps[i] == ps[1..][i - 1];
    }
  }

  lemma {:induction false} FilterAll(w: World, ps: seq<string>)
    requires forall i :: 0 <= i < |ps| ==> Sendable(w, ps[i])
    ensures Filter(w, ps) == ps
  {
    if ps != [] {
      FilterAll(w, ps[1..]);
    }
  }

  lemma InjectCore(w: World, l: Link, step: Step)
    requires Core(w, l) && step.Inject? && Enabled(l, step)
    ensures Core(w, Next(w, l, step))
  {
    Snoc(if step.toConsumer then l.toConsumer else l.toProvider, step.msg);
    FlowSame(w, l, Next(w, l, step));
  }

  /** A NEED is answered only if something on it can at least be found; otherwise nothing on it is sendable. */
  lemma AnswerGate(w: World, paths: seq<string>, l: Link)
    requires Sane(w) && l.toProvider != [] && l.toProvider[0] == Need(paths) && l.serving == []
    ensures Filter(w, ProviderReads(w, l).serving) == Filter(w, paths)
    ensures Suffix(ProviderReads(w, l).serving, paths)
    ensures ProviderReads(w, l) == l.(toProvider := l.toProvider[1..], serving := ProviderReads(w, l).serving)
  {
    FilterSendable(w, paths);
    assert paths[|paths| - 0..] == [];
    assert paths[0..] == paths;
  }

  lemma ProviderReadNeed(w: World, l: Link)
    requires Sane(w) && Core(w, l) && Enabled(l, ProviderRead) && l.toProvider[0].Need?
    ensures Core(w, ProviderReads(w, l))
  {
    assert Needs(l.toProvider) == [l.toProvider[0].paths] + Needs(l.toProvider[1..]);
    assert l.toProvider[0].paths == Needs(l.toProvider)[0] == l.needs;
    assert Needs(l.toProvider[1..]) == [];
    AnswerGate(w, l.needs, l);
    var l' := ProviderReads(w, l);
    assert Coming(w, l) == Coming(w, l');
  }

  lemma HeadNotNeed(msgs: seq<Msg>)
    requires msgs != [] && !msgs[0].Need?
    ensures Needs(msgs) == Needs(msgs[1..])
  {
  }

  lemma FlowSame(w: World, l: Link, l': Link)
    requires Core(w, l) && l' == l.(toProvider := l'.toProvider, toConsumer := l'.toConsumer)
    requires Chunks(l'.toConsumer) == Chunks(l.toConsumer) && AllFinal(l'.toConsumer)
    requires Needs(l'.toProvider) == Needs(l.toProvider)
    ensures Core(w, l')
  {
    assert Coming(w, l) == Coming(w, l');
  }

  lemma ProviderReadOther(w: World, l: Link)
    requires Core(w, l) && Enabled(l, ProviderRead) && !l.toProvider[0].Need?
    ensures Core(w, ProviderReads(w, l))
  {
    Snoc(l.toConsumer, Ping);
    HeadNotNeed(l.toProvider);
    FlowSame(w, l, ProviderReads(w, l));
  }

  lemma SendSkip(w: World, l: Link)
    requires Core(w, l) && Enabled(l, ProviderSend) && !Sendable(w, l.serving[0])
    ensures Core(w, Next(w, l, ProviderSend))
  {
    assert Coming(w, Next(w, l, ProviderSend)) == Coming(w, l);
  }

  lemma PathsSnoc(cs: seq<Sent>, c: Sent)
    ensures PathsOf(cs + [c]) == PathsOf(cs) + [c.path]
  {
  }

  lemma ComingAfterSend(w: World, l: Link, l': Link)
    requires l.serving != [] && Sendable(w, l.serving[0]) && l'.serving == l.serving[1..]
    requires Needs(l.toProvider) == [] && l'.toProvider == l.toProvider && l'.needs == l.needs
    requires PathsOf(Chunks(l'.toConsumer)) == PathsOf(Chunks(l.toConsumer)) + [l.serving[0]]
    ensures Coming(w, l') == Coming(w, l)
  {
    Assoc(PathsOf(Chunks(l.toConsumer)), [l.serving[0]], Filter(w, l'.serving));
  }

  lemma SendChunk(w: World, l: Link)
    requires Core(w, l) && Enabled(l, ProviderSend) && Sendable(w, l.serving[0])
    ensures Core(w, Next(w, l, ProviderSend))
  {
    var l' := Next(w, l, ProviderSend);
    var p := l.serving[0];
    var c := Sent(p, l.content[p]);
    Snoc(l.toConsumer, Chunk(p, l.content[p], true));
    PathsSnoc(Chunks(l.toConsumer), c);
    ComingAfterSend(w, l, l');
    Assoc(l.installed, Chunks(l.toConsumer), [c]);
  }

  /** The message at the head of the consumer's channel leaves it. */
  lemma Arrives(w: World, l: Link, l': Link)
    requires l.toConsumer != [] && l'.toConsumer == l.toConsumer[1..]
    requires l'.serving == l.serving && l'.needs == l.needs && (Needs(l'.toProvider) == [] <==> Needs(l.toProvider) == [])
    ensures var m := l.toConsumer[0];
            if m.Chunk?
            then Chunks(l.toConsumer) == [Sent(m.path, m.data)] + Chunks(l'.toConsumer) && Coming(w, l) == [m.path] + Coming(w, l')
            else Chunks(l.toConsumer) == Chunks(l'.toConsumer) && Coming(w, l) == Coming(w, l')
  {
    var m := l.toConsumer[0];
    if m.Chunk? {
      assert PathsOf(Chunks(l.toConsumer)) == [m.path] + PathsOf(Chunks(l'.toConsumer));
    }
  }

  lemma SuffixFilter(w: World, part: seq<string>, all: seq<string>)
    requires Suffix(part, all)
    requires forall i :: 0 <= i < |all| ==> Sendable(w, all[i])
    ensures Filter(w, part) == part
  {
    assert forall i :: 0 <= i < |part| ==> part[i] == all[|all| - |part| + i];
    FilterAll(w, part);
  }

  /** While nothing has been skipped the chunk at the head is the one the consumer waits for. */
  lemma HeadIsAwaited(w: World, l: Link)
    requires Core(w, l) && Receiving(l) && !Blocked(w, l)
    requires l.toConsumer != [] && l.toConsumer[0].Chunk?
    ensures l.toConsumer[0].path == l.needs[l.next] && l.toConsumer[0].final
    ensures Filter(w, l.needs[l.next..]) == [l.needs[l.next]] + Filter(w, l.needs[l.next + 1..])
  {
    var rest := l.needs[l.next..];
    assert rest[1..] == l.needs[l.next + 1..];
    assert Coming(w, l)[0] == PathsOf(Chunks(l.toConsumer))[0] == l.toConsumer[0].path;
  }

  predicate TakesChunk(w: World, l: Link) {
    Core(w, l) && Receiving(l) && !Blocked(w, l) && l.toConsumer != [] && l.toConsumer[0].Chunk?
  }

  lemma InstallDone(w: World, l: Link, l': Link)
    requires TakesChunk(w, l) && l' == ConsumerReads(l, [])
    ensures l'.next == l.next + 1 && DoneOk(w, l')
  {
    HeadIsAwaited(w, l);
    assert PathsOf(l'.installed) == PathsOf(l.installed) + [l.needs[l.next]] == l.needs[..l'.next];
  }

  lemma InstallFlow(w: World, l: Link, l': Link)
    requires TakesChunk(w, l) && l' == ConsumerReads(l, [])
    ensures l'.next == l.next + 1 && l'.sent == l'.installed + Chunks(l'.toConsumer) && AllFinal(l'.toConsumer)
    ensures Needs(l'.toProvider) == Needs(l.toProvider) == []
    ensures Coming(w, l') == Filter(w, l.needs[l'.next..])
  {
    HeadIsAwaited(w, l);
    var m := l.toConsumer[0];
    Snoc(l.toProvider, ApplyOk(m.path));
    Arrives(w, l, l');
    assert Coming(w, l') == Coming(w, l)[1..];
  }

  lemma InstallCore(w: World, l: Link, wanted: seq<string>)
    requires TakesChunk(w, l)
    ensures Core(w, ConsumerReads(l, wanted))
    ensures ConsumerReads(l, wanted).next == l.next + 1
  {
    var l' := ConsumerReads(l, []);
    InstallDone(w, l, l');
    InstallFlow(w, l, l');
    assert Blocked(w, l') ==> l'.installed <= l'.sent && Suffix(Coming(w, l'), Filter(w, l.needs[l'.next..]));
    if !Receiving(l') {
      assert l.needs[l'.next..] == [];
      assert Filter(w, l.serving) == [];
      SuffixFilter(w, l.serving, l.needs);
    }
  }

  lemma DiscardCore(w: World, l: Link, wanted: seq<string>)
    requires Core(w, l) && Enabled(l, ConsumerRead(wanted)) && Receiving(l)
    requires Blocked(w, l) || !l.toConsumer[0].Chunk?
    ensures Core(w, ConsumerReads(l, wanted))
    ensures ConsumerReads(l, wanted).next == l.next
  {
    var m := l.toConsumer[0];
    if m.Chunk? {
      FilterSendable(w, l.needs[l.next..]);
      assert Coming(w, l)[0] == PathsOf(Chunks(l.toConsumer))[0] == m.path;
      assert Sendable(w, m.path);
    }
    var l' := ConsumerReads(l, wanted);
    Arrives(w, l, l');
  }

  lemma AsksNow(w: World, l: Link, wanted: seq<string>)
    requires Core(w, l) && !Receiving(l) && l.toConsumer != [] && l.toConsumer[0].Manifest? && wanted != []
    ensures Core(w, ConsumerReads(l, wanted))
  {
    var l' := ConsumerReads(l, wanted);
    IdleHasNone(w, l);
    HeadChunk(l.toConsumer);
    Snoc(l.toProvider, Need(wanted));
    assert wanted[0..] == wanted;
    assert PathsOf([]) + Filter(w, wanted) == Filter(w, wanted);
    assert Coming(w, l') == Filter(w, wanted);
    FilterSendable(w, wanted);
  }

  lemma IdleCore(w: World, l: Link, wanted: seq<string>)
    requires Core(w, l) && Enabled(l, ConsumerRead(wanted)) && !Receiving(l)
    ensures Core(w, ConsumerReads(l, wanted))
  {
    if l.toConsumer[0].Manifest? && wanted != [] {
      AsksNow(w, l, wanted);
    } else {
      IdleHasNone(w, l);
      HeadChunk(l.toConsumer);
      Snoc(l.toProvider, Ping);
      FlowSame(w, l, ConsumerReads(l, wanted));
    }
  }

  lemma HeadChunk(msgs: seq<Msg>)
    requires msgs != []
    ensures Chunks(msgs) == (if msgs[0].Chunk? then [Sent(msgs[0].path, msgs[0].data)] else []) + Chunks(msgs[1..])
  {
  }

  lemma IdleHasNone(w: World, l: Link)
    requires Core(w, l) && !Receiving(l)
    ensures Chunks(l.toConsumer) == []
  {
    assert l.needs[l.next..] == [];
  }

  lemma CoreStep(w: World, l: Link, step: Step)
    requires Sane(w) && Core(w, l) && Enabled(l, step)
    requires step.ConsumerRead? ==> !Oversized(w, l.toConsumer[0])
    ensures Core(w, Next(w, l, step))
  {
    match step
    case Inject(_, _) => InjectCore(w, l, step);
    case Edit(_, _) =>
    case ProviderRead =>
      if l.toProvider[0].Need? {
        ProviderReadNeed(w, l);
      } else {
        ProviderReadOther(w, l);
      }
    case ProviderSend =>
      if Sendable(w, l.serving[0]) {
        SendChunk(w, l);
      } else {
        SendSkip(w, l);
      }
    case ConsumerRead(wanted) => ConsumerCore(w, l, wanted);
  }

  lemma ConsumerCore(w: World, l: Link, wanted: seq<string>)
    requires Core(w, l) && Enabled(l, ConsumerRead(wanted))
    ensures Core(w, ConsumerReads(l, wanted))
  {
    if !Receiving(l) {
      IdleCore(w, l, wanted);
    } else if Blocked(w, l) || !l.toConsumer[0].Chunk? {
      DiscardCore(w, l, wanted);
    } else {
      InstallCore(w, l, wanted);
    }
  }

  // ---------------------------------------------------------------- chunks that are too large

  lemma FlyingPop(w: World, sent: seq<Sent>, flying: seq<Sent>, done: nat)
    requires Flying(w, sent, flying, done) && flying != [] && Fits(w, flying[0])
    ensures Flying(w, sent, flying[1..], done) && Flying(w, sent, flying[1..], done + 1)
  {
    var k := |sent| - |flying|;
    assert sent[k] == flying[0];
    assert flying[1..] == sent[k + 1..];
  }

  lemma FlyingPush(w: World, sent: seq<Sent>, flying: seq<Sent>, done: nat, c: Sent)
    requires Flying(w, sent, flying, done)
    ensures Flying(w, sent + [c], flying + [c], done)
  {
  }

  /** A chunk that fits leaves the channel, or another message does. */
  lemma FittedReceive(w: World, l: Link)
    requires Fitted(w, l) && Receiving(l) && l.toConsumer != [] && !Oversized(w, l.toConsumer[0])
    ensures Fitted(w, ConsumerReads(l, []))
  {
    var m := l.toConsumer[0];
    HeadChunk(l.toConsumer);
    if m.Chunk? {
      assert Chunks(l.toConsumer)[1..] == Chunks(l.toConsumer[1..]);
      FlyingPop(w, l.sent, Chunks(l.toConsumer), |l.installed|);
    }
  }

  lemma FittedIdle(w: World, l: Link, wanted: seq<string>)
    requires Core(w, l) && Fitted(w, l) && !Receiving(l) && l.toConsumer != []
    ensures Fitted(w, ConsumerReads(l, wanted))
  {
    IdleHasNone(w, l);
    HeadChunk(l.toConsumer);
  }

  lemma FittedRead(w: World, l: Link, wanted: seq<string>)
    requires Core(w, l) && Fitted(w, l) && l.toConsumer != [] && !Oversized(w, l.toConsumer[0])
    ensures Fitted(w, ConsumerReads(l, wanted))
  {
    if Receiving(l) {
      FittedReceive(w, l);
      assert ConsumerReads(l, wanted) == ConsumerReads(l, []);
    } else {
      FittedIdle(w, l, wanted);
    }
  }

  lemma FittedSend(w: World, l: Link)
    requires Fitted(w, l) && Enabled(l, ProviderSend) && l.content.Keys == w.readable
    ensures Fitted(w, Next(w, l, ProviderSend))
  {
    var p := l.serving[0];
    if Sendable(w, p) {
      var m := Chunk(p, l.content[p], true);
      assert [m][1..] == [];
      ChunksSnoc(l.toConsumer, m);
      FlyingPush(w, l.sent, Chunks(l.toConsumer), |l.installed|, Sent(p, l.content[p]));
    }
  }

  lemma FittedOther(w: World, l: Link, step: Step)
    requires Fitted(w, l) && Enabled(l, step) && l.content.Keys == w.readable
    requires step.Inject? || step.Edit? || step.ProviderRead?
    ensures Fitted(w, Next(w, l, step))
  {
    assert Chunks([Ping]) == Chunks([Ping][1..]) == [];
    ChunksSnoc(l.toConsumer, Ping);
    if step.Inject? {
      assert Chunks([step.msg]) == Chunks([step.msg][1..]) == [];
      ChunksSnoc(l.toConsumer, step.msg);
    }
  }

  lemma FittedStep(w: World, l: Link, step: Step)
    requires Core(w, l) && Fitted(w, l) && Enabled(l, step)
    requires step.ConsumerRead? ==> !Oversized(w, l.toConsumer[0])
    ensures Fitted(w, Next(w, l, step))
  {
    match step
    case ConsumerRead(wanted) => FittedRead(w, l, wanted);
    case ProviderSend => FittedSend(w, l);
    case _ => FittedOther(w, l, step);
  }

  lemma BreakInv(w: World, l: Link)
    requires Core(w, l) && Fitted(w, l) && l.toConsumer != [] && Oversized(w, l.toConsumer[0])
    ensures Broken(w, Break(l))
  {
    var m := l.toConsumer[0];
    var k := |l.sent| - |Chunks(l.toConsumer)|;
    HeadChunk(l.toConsumer);
    assert l.sent[k] == l.sent[k..][0] == Sent(m.path, m.data);
    assert FitCount(w, l.sent) == k;
    if !Receiving(l) {
      IdleHasNone(w, l);
    } else if !Blocked(w, l) {
      HeadIsAwaited(w, l);
    }
  }

  lemma StaysUp(w: World, l: Link, step: Step)
    requires l.up && Enabled(l, step) && l.content.Keys == w.readable
    ensures Next(w, l, step).up <==> !(step.ConsumerRead? && Oversized(w, l.toConsumer[0]))
    ensures !Next(w, l, step).up ==> Next(w, l, step) == Break(l)
  {
  }

  lemma BrokenStays(w: World, l: Link, step: Step)
    requires !l.up && Broken(w, l) && Enabled(l, step)
    ensures step.Edit? && !Next(w, l, step).up && Broken(w, Next(w, l, step))
  {
  }

  lemma InvStep(w: World, l: Link, step: Step)
    requires Sane(w) && Inv(w, l) && Enabled(l, step)
    ensures Inv(w, Next(w, l, step))
  {
    if !l.up {
      BrokenStays(w, l, step);
    } else {
      StaysUp(w, l, step);
      if step.ConsumerRead? && Oversized(w, l.toConsumer[0]) {
        BreakInv(w, l);
      } else {
        CoreStep(w, l, step);
        FittedStep(w, l, step);
      }
    }
  }

  lemma {:induction false} InvAlways(w: World, run: seq<Link>, steps: seq<Step>, i: nat)
    requires Run(w, run, steps) && i <= |steps|
    ensures Inv(w, run[i])
  {
    if i > 0 {
      InvAlways(w, run, steps, i - 1);
      assert Linked(w, run, steps, i - 1);
      InvStep(w, run[i - 1], steps[i - 1]);
    } else {
      assert run[0].needs[..0] == [];
    }
  }

  // ---------------------------------------------------------------- what a session does

  /** How many of the requested paths come before the first one the provider cannot send. */
  function SendablePrefix(w: World, ps: seq<string>): (n: nat)
    ensures n <= |ps|
    ensures forall i :: 0 <= i < n ==> Sendable(w, ps[i])
    ensures n < |ps| ==> !Sendable(w, ps[n])
  {
    if ps == [] || !Sendable(w, ps[0]) then 0 else 1 + SendablePrefix(w, ps[1..])
  }

  lemma {:induction false} PrefixAtLeast(w: World, ps: seq<string>, k: nat)
    requires k <= |ps| && forall i :: 0 <= i < k ==> Sendable(w, ps[i])
    ensures k <= SendablePrefix(w, ps)
  {
    if k > 0 {
      assert Sendable(w, ps[0]) && forall i :: 0 <= i < k - 1 ==> ps[1..][i] == ps[i + 1];
      PrefixAtLeast(w, ps[1..], k - 1);
    }
  }

  /** None of the loops has anything to do. */
  predicate Quiet(l: Link) {
    l.toConsumer == [] && l.toProvider == [] && l.serving == []
  }

  /** In every reachable state, what the session has installed is, path by path and in order, what was asked
      for, each with the bytes the provider read for it, and fits; it never gets past the first path that cannot be
      sent nor past the first chunk that is too large; and once both sides have nothing left to do, or the connection
      has been dropped, which happens over a chunk that is too large only, it has got exactly to the first of the two. */
  lemma InstallsExactlyThePrefix(w: World, run: seq<Link>, steps: seq<Step>, i: nat)
    requires Run(w, run, steps) && i <= |steps|
    ensures var l := run[i];
            && l.next <= SendablePrefix(w, l.needs) && l.next <= FitCount(w, l.sent)
            && PathsOf(l.installed) == l.needs[..l.next]
            && l.installed <= l.sent
            && (!l.up ==> FitCount(w, l.sent) < |l.sent|)
            && (Quiet(l) || !l.up ==>
                  || l.next == SendablePrefix(w, l.needs)
                  || (l.next == FitCount(w, l.sent) < |l.sent| && Receiving(l) && l.sent[l.next].path == l.needs[l.next]))
  {
    InvAlways(w, run, steps, i);
    if run[i].up {
      OutcomeUp(w, run[i]);
    } else {
      OutcomeDown(w, run[i]);
    }
  }

  lemma OutcomeUp(w: World, l: Link)
    requires Core(w, l) && Fitted(w, l)
    ensures l.next <= SendablePrefix(w, l.needs) && l.next <= FitCount(w, l.sent)
    ensures PathsOf(l.installed) == l.needs[..l.next] && l.installed <= l.sent
    ensures Quiet(l) ==> l.next == SendablePrefix(w, l.needs)
  {
    PrefixAtLeast(w, l.needs, l.next);
    assert |l.installed| == |PathsOf(l.installed)| == l.next;
    FitAtLeast(w, l.sent, l.next);
    if Quiet(l) && Receiving(l) && !Blocked(w, l) {
      AwaitedIsComing(w, l);
    }
  }

  lemma OutcomeDown(w: World, l: Link)
    requires Broken(w, l)
    ensures l.next <= SendablePrefix(w, l.needs) && l.next <= FitCount(w, l.sent) < |l.sent|
    ensures PathsOf(l.installed) == l.needs[..l.next] && l.installed <= l.sent
    ensures || l.next == SendablePrefix(w, l.needs)
            || (l.next == FitCount(w, l.sent) && Receiving(l) && l.sent[l.next].path == l.needs[l.next])
  {
    PrefixAtLeast(w, l.needs, l.next);
  }

  lemma FitAtLeast(w: World, cs: seq<Sent>, k: nat)
    requires k <= |cs| && forall i :: 0 <= i < k ==> Fits(w, cs[i])
    ensures k <= FitCount(w, cs)
  {
  }

  /** The provider can send it, and its chunk is not too large. */
  predicate Deliverable(w: World, content: map<string, Bytes>, p: string) {
    Sendable(w, p) && p in content && Fits(w, Sent(p, content[p]))
  }

  function DeliverablePrefix(w: World, content: map<string, Bytes>, ps: seq<string>): (n: nat)
    ensures n <= |ps|
    ensures forall i :: 0 <= i < n ==> Deliverable(w, content, ps[i])
    ensures n < |ps| ==> !Deliverable(w, content, ps[n])
  {
    if ps == [] || !Deliverable(w, content, ps[0]) then 0 else 1 + DeliverablePrefix(w, content, ps[1..])
  }

  predicate NoEdits(steps: seq<Step>) {
    forall i :: 0 <= i < |steps| ==> !steps[i].Edit?
  }

  /** Everything sent in this session is what the files hold. */
  predicate AsRead(l: Link) {
    forall i :: 0 <= i < |l.sent| ==> l.sent[i].path in l.content && l.sent[i].data == l.content[l.sent[i].path]
  }

  lemma AsReadStep(w: World, l: Link, step: Step)
    requires AsRead(l) && Enabled(l, step) && l.content.Keys == w.readable && !step.Edit?
    ensures AsRead(Next(w, l, step)) && Next(w, l, step).content == l.content
  {
  }

  lemma {:induction false} AsReadAlways(w: World, run: seq<Link>, steps: seq<Step>, i: nat)
    requires Run(w, run, steps) && i <= |steps| && NoEdits(steps)
    ensures AsRead(run[i]) && run[i].content == run[0].content
  {
    if i > 0 {
      AsReadAlways(w, run, steps, i - 1);
      assert Linked(w, run, steps, i - 1);
      AsReadStep(w, run[i - 1], steps[i - 1]);
    }
  }

  lemma SentAtInstalled(w: World, l: Link, i: nat)
    requires l.next <= |l.needs| && PathsOf(l.installed) == l.needs[..l.next] && l.installed <= l.sent && i < l.next
    ensures i < |l.installed| <= |l.sent| && l.sent[i] == l.installed[i] && l.sent[i].path == l.needs[i]
  {
    assert |l.installed| == |PathsOf(l.installed)| == l.next;
    assert PathsOf(l.installed)[i] == l.needs[i];
  }

  /** While no file is edited, every session of a run gets exactly to the first path that the provider cannot send or
      whose chunk is too large, and every file it installs is the provider's. So a file that is too large stops each
      session that asks for it, at that file. */
  lemma StopsAtTheFirstUndeliverable(w: World, run: seq<Link>, steps: seq<Step>, i: nat)
    requires Run(w, run, steps) && i <= |steps| && NoEdits(steps)
    ensures var l := run[i];
            && l.next <= DeliverablePrefix(w, run[0].content, l.needs)
            && (Quiet(l) || !l.up ==> l.next == DeliverablePrefix(w, run[0].content, l.needs))
            && forall c :: c in l.installed ==> c.path in run[0].content && c.data == run[0].content[c.path]
    ensures var l := run[i];
            && (forall j :: 0 <= j < l.next ==>
                  var p := l.needs[j];
                  p in w.readable && !w.ignored(p) && p in run[0].content
                  && 1 + w.chunkSize(p, run[0].content[p]) <= 64 * 1024 * 1024)
            && ((Quiet(l) || !l.up) && l.next < |l.needs| ==>
                  var p := l.needs[l.next];
                  p !in w.readable || w.ignored(p) || (p in run[0].content && 1 + w.chunkSize(p, run[0].content[p]) > 64 * 1024 * 1024))
  {
    InstallsExactlyThePrefix(w, run, steps, i);
    AsReadAlways(w, run, steps, i);
    InvAlways(w, run, steps, i);
    var l := run[i];
    forall j | 0 <= j < l.next
      ensures Deliverable(w, run[0].content, l.needs[j])
    {
      SentAtInstalled(w, l, j);
    }
    forall c | c in l.installed
      ensures c.path in run[0].content && c.data == run[0].content[c.path]
    {
      var j :| 0 <= j < |l.installed| && l.installed[j] == c;
      assert l.sent[j] == c;
    }
  }

  lemma Continue(w: World, run: seq<Link>, steps: seq<Step>, step: Step) returns (run': seq<Link>, steps': seq<Step>)
    requires Run(w, run, steps) && run[|steps|].content.Keys == w.readable && Enabled(run[|steps|], step)
    ensures Run(w, run', steps') && |steps'| == |steps| + 1 && run'[0] == run[0]
    ensures run'[|steps'|] == Next(w, run[|steps|], step)
  {
    run', steps' := run + [Next(w, run[|steps|], step)], steps + [step];
    forall i | 0 <= i < |steps'|
      ensures Linked(w, run', steps', i)
    {
      assert i < |steps| ==> Linked(w, run, steps, i);
    }
  }

  /** Such a run, for any file that can be read and is too large, whatever is asked for after it. */
  lemma OversizedFileDropsTheConnection(w: World, content: map<string, Bytes>, p: string, rest: seq<string>)
      returns (run: seq<Link>, steps: seq<Step>)
    requires Sane(w) && content.Keys == w.readable && Sendable(w, p) && !Fits(w, Sent(p, content[p]))
    ensures Run(w, run, steps)
    ensures var l := run[|steps|]; !l.up && l.needs == [p] + rest && l.installed == []
  {
    var ask := [p] + rest;
    run, steps := [Link(content, [], [], [], [], 0, [], [], true)], [];
    run, steps := Continue(w, run, steps, Inject(true, Manifest(ask)));
    run, steps := Continue(w, run, steps, ConsumerRead(ask));
    assert run[|steps|].toProvider == [Need(ask)] && ask[0] == p;
    run, steps := Continue(w, run, steps, ProviderRead);
    assert p in ask && run[|steps|].serving == ask;
    run, steps := Continue(w, run, steps, ProviderSend);
    assert run[|steps|].toConsumer == [Chunk(p, content[p], true)];
    run, steps := Continue(w, run, steps, ConsumerRead([]));
  }

  lemma AwaitedIsComing(w: World, l: Link)
    requires Core(w, l) && Receiving(l) && !Blocked(w, l)
    ensures || (Chunks(l.toConsumer) != [] && Chunks(l.toConsumer)[0].path == l.needs[l.next])
            || (Chunks(l.toConsumer) == [] && Filter(w, l.serving) != [] && Filter(w, l.serving)[0] == l.needs[l.next])
            || Needs(l.toProvider) == [l.needs]
  {
    assert l.needs[l.next..][0] == l.needs[l.next];
    assert Filter(w, l.needs[l.next..])[0] == l.needs[l.next];
    if Chunks(l.toConsumer) != [] {
      assert Coming(w, l)[0] == PathsOf(Chunks(l.toConsumer))[0];
    }
  }

  /** No deadlock: a consumer that waits for a path the provider can send has its chunk first in line on the
      channel, or first in what `sendFiles` has left, or its NEED still on the way; so one of the loops can move. */
  lemma NoDeadlock(w: World, run: seq<Link>, steps: seq<Step>, i: nat)
    requires Run(w, run, steps) && i <= |steps|
    requires run[i].up && Receiving(run[i]) && Sendable(w, run[i].needs[run[i].next])
    ensures var l := run[i];
            || (Chunks(l.toConsumer) != [] && Chunks(l.toConsumer)[0].path == l.needs[l.next])
            || (Filter(w, l.serving) != [] && Filter(w, l.serving)[0] == l.needs[l.next])
            || (l.serving == [] && Needs(l.toProvider) == [l.needs])
    ensures exists step :: Internal(step) && Enabled(run[i], step)
  {
    InvAlways(w, run, steps, i);
    AwaitedIsComing(w, run[i]);
    SomeoneMoves(w, run[i]);
  }

  lemma SomeoneMoves(w: World, l: Link)
    requires l.up && (Chunks(l.toConsumer) != [] || Filter(w, l.serving) != [] || Needs(l.toProvider) != [])
    ensures exists step :: Internal(step) && Enabled(l, step)
  {
    if Chunks(l.toConsumer) != [] {
      assert Enabled(l, ConsumerRead([]));
    } else if l.serving != [] {
      assert Enabled(l, ProviderSend);
    } else {
      assert Enabled(l, ProviderRead);
    }
  }

  /** What a session still has to do: paths to look at, files to install, messages to read, weighted so
      that every answer costs less than what it answers. */
  function Work(l: Link): nat
    requires l.next <= |l.needs|
  {
    2 * (|l.serving| + if Needs(l.toProvider) == [] then 0 else |l.needs|)
    + 2 * (|l.needs| - l.next) + 2 * |l.toProvider| + |l.toConsumer|
  }

  lemma NeedsHead(msgs: seq<Msg>)
    requires msgs != []
    ensures Needs(msgs) == (if msgs[0].Need? then [msgs[0].paths] else []) + Needs(msgs[1..])
  {
  }

  lemma ReadNeedWork(w: World, l: Link)
    requires NeedOk(l) && l.toProvider != [] && l.toProvider[0].Need? && Receiving(l)
    ensures var l' := ProviderReads(w, l); l'.next <= |l'.needs| && Work(l') < Work(l)
  {
    NeedsHead(l.toProvider);
    var m := l.toProvider[0];
    assert Needs(l.toProvider)[0] == m.paths;
    assert |Needs(l.toProvider)| == 1 + |Needs(l.toProvider[1..])|;
    assert Needs(l.toProvider[1..]) == [] && m.paths == l.needs && l.serving == [];
  }

  lemma ReadWork(w: World, l: Link)
    requires NeedOk(l) && l.toProvider != [] && Receiving(l)
    ensures var l' := ProviderReads(w, l); l'.next <= |l'.needs| && Work(l') < Work(l)
  {
    if l.toProvider[0].Need? {
      ReadNeedWork(w, l);
    } else {
      HeadNotNeed(l.toProvider);
    }
  }

  lemma ReceiveWork(w: World, l: Link, wanted: seq<string>)
    requires Core(w, l) && Enabled(l, ConsumerRead(wanted)) && Receiving(l)
    ensures var l' := ConsumerReads(l, wanted); l'.next <= |l'.needs| && Work(l') < Work(l)
  {
    if l.toConsumer[0].Chunk? {
      Snoc(l.toProvider, ApplyOk(l.toConsumer[0].path));
    }
  }

  lemma InjectWork(w: World, l: Link, toConsumer: bool, msg: Msg)
    requires l.next <= |l.needs| && l.content.Keys == w.readable && Enabled(l, Inject(toConsumer, msg))
    ensures var l' := Next(w, l, Inject(toConsumer, msg)); l'.next <= |l'.needs| && Work(l') <= Work(l) + 2
  {
    NeedsSnoc(l.toProvider, msg);
    assert Needs([msg]) == Needs([msg][1..]) == [];
  }

  lemma SendWork(w: World, l: Link)
    requires l.next <= |l.needs| && l.content.Keys == w.readable && Enabled(l, ProviderSend)
    ensures var l' := Next(w, l, ProviderSend); l'.next <= |l'.needs| && Work(l') < Work(l)
  {
  }

  lemma BreakWork(l: Link)
    requires l.next <= |l.needs| && l.toConsumer != []
    ensures Work(Break(l)) < Work(l)
  {
  }

  /** Every move of the loops leaves less to do. */
  lemma WorkFalls(w: World, l: Link, step: Step)
    requires Sane(w) && Inv(w, l) && Enabled(l, step) && Receiving(l)
    ensures Next(w, l, step).next <= |Next(w, l, step).needs|
    ensures var d := Work(Next(w, l, step)) - Work(l);
            if step.Inject? then d <= 2 else if step.Edit? then d == 0 else d < 0
  {
    match step
    case Inject(toConsumer, msg) => InjectWork(w, l, toConsumer, msg);
    case Edit(_, _) =>
    case ProviderRead => ReadWork(w, l);
    case ProviderSend => SendWork(w, l);
    case ConsumerRead(wanted) =>
      if Oversized(w, l.toConsumer[0]) {
        BreakWork(l);
      } else {
        ReceiveWork(w, l, wanted);
      }
  }

  function InternalCount(steps: seq<Step>): nat {
    if steps == [] then 0
    else InternalCount(steps[..|steps| - 1]) + if Internal(steps[|steps| - 1]) then 1 else 0
  }

  function InjectCount(steps: seq<Step>): nat {
    if steps == [] then 0
    else InjectCount(steps[..|steps| - 1]) + if steps[|steps| - 1].Inject? then 1 else 0
  }

  /** A session ends: over any stretch during which the consumer stays in `receiveFile`, the loops make no more
      moves than the work there was at its start, plus two for every message the other goroutines put in between. */
  lemma {:induction false} SessionIsBounded(w: World, run: seq<Link>, steps: seq<Step>)
    requires Sane(w) && Path(w, run, steps) && Inv(w, run[0])
    requires forall i :: 0 <= i < |steps| ==> Receiving(run[i])
    ensures Inv(w, run[|steps|])
    ensures InternalCount(steps) + Work(run[|steps|]) <= Work(run[0]) + 2 * InjectCount(steps)
  {
    if steps != [] {
      var n := |steps| - 1;
      var run', steps' := run[..n + 1], steps[..n];
      forall i | 0 <= i < |steps'|
        ensures Linked(w, run', steps', i)
      {
        assert Linked(w, run, steps, i);
      }
      SessionIsBounded(w, run', steps');
      assert Linked(w, run, steps, n);
      InvStep(w, run[n], steps[n]);
      WorkFalls(w, run[n], steps[n]);
    }
  }

  // ---------------------------------------------------------------- pings

  function PingCount(msgs: seq<Msg>): nat {
    if msgs == [] then 0 else (if msgs[0].Ping? then 1 else 0) + PingCount(msgs[1..])
  }

  lemma {:induction false} PingSnoc(msgs: seq<Msg>, m: Msg)
    ensures PingCount(msgs + [m]) == PingCount(msgs) + if m.Ping? then 1 else 0
  {
    if msgs == [] {
      assert msgs + [m] == [m] && [m][1..] == [];
    } else {
      assert (msgs + [m])[1..] == msgs[1..] + [m];
      PingSnoc(msgs[1..], m);
    }
  }

  /** Both loops answer a ping with a ping, so outside a session the pings on a connection never die out:
      no move of the loops changes their number. Inside one, `receiveFile` drops those it reads. */
  lemma PingsAreConserved(w: World, l: Link, step: Step)
    requires Enabled(l, step) && Internal(step) && l.content.Keys == w.readable
    ensures var l' := Next(w, l, step);
            PingCount(l'.toConsumer) + PingCount(l'.toProvider) ==
            PingCount(l.toConsumer) + PingCount(l.toProvider)
            - if step.ConsumerRead? && Receiving(l) && l.toConsumer[0].Ping? then 1 else 0
  {
    match step
    case ProviderRead => PingSnoc(l.toConsumer, Ping);
    case ProviderSend =>
      if Sendable(w, l.serving[0]) {
        PingSnoc(l.toConsumer, Chunk(l.serving[0], l.content[l.serving[0]], true));
      }
    case ConsumerRead(wanted) =>
      PingSnoc(l.toProvider, Ping);
      PingSnoc(l.toProvider, Need(wanted));
      if l.toConsumer[0].Chunk? {
        PingSnoc(l.toProvider, ApplyOk(l.toConsumer[0].path));
      }
  }

  // ---------------------------------------------------------------- acknowledgements

  function AckCount(msgs: seq<Msg>): nat {
    if msgs == [] then 0 else (if msgs[0].ApplyOk? then 1 else 0) + AckCount(msgs[1..])
  }

  lemma {:induction false} AckSnoc(msgs: seq<Msg>, m: Msg)
    ensures AckCount(msgs + [m]) == AckCount(msgs) + if m.ApplyOk? then 1 else 0
  {
    if msgs == [] {
      assert msgs + [m] == [m] && [m][1..] == [];
    } else {
      assert (msgs + [m])[1..] == msgs[1..] + [m];
      AckSnoc(msgs[1..], m);
    }
  }

  lemma ReadAcknowledges(l: Link)
    requires l.toConsumer != [] && Receiving(l)
    ensures var l' := ConsumerReads(l, []);
            && |l.installed| <= |l'.installed|
            && AckCount(l'.toProvider) == AckCount(l.toProvider) + |l'.installed| - |l.installed|
  {
    var m := l.toConsumer[0];
    if m.Chunk? {
      AckSnoc(l.toProvider, ApplyOk(m.path));
    }
  }

  /** Every installed file is acknowledged once, and nothing else is. */
  lemma InstallsAreAcknowledged(w: World, l: Link, step: Step)
    requires Enabled(l, step) && Internal(step) && l.content.Keys == w.readable
    ensures var l' := Next(w, l, step);
            AckCount(l'.toProvider) == AckCount(l.toProvider)
              + (if step.ConsumerRead? && Receiving(l) then |l'.installed| - |l.installed| else 0)
              - if step.ProviderRead? && l.toProvider[0].ApplyOk? then 1 else 0
  {
    match step
    case ProviderRead =>
    case ProviderSend =>
    case ConsumerRead(wanted) =>
      if Receiving(l) {
        ReadAcknowledges(l);
        assert ConsumerReads(l, wanted) == ConsumerReads(l, []);
      } else {
        AckSnoc(l.toProvider, Need(wanted));
        AckSnoc(l.toProvider, Ping);
      }
  }
}
