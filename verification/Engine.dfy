/** The engine's own loops: deciding on a manifest, answering a NEED, receiving the chunks. Each loop is proved
    against a function of the files and of what the connection delivers, and the functions are joined with the
    path-by-path result of `Reconcile`. */
module Engine {
  import opened Reconcile
  import opened Order
  import T = Transfer
  import Pruning

  const TEMP_SUFFIX := ".sps.tmp"

  function TempName(path: string): string {
    path + TEMP_SUFFIX
  }

  // ---------------------------------------------------------------- receiving, as functions

  datatype Outcome = Outcome(ok: bool, files: Replica, rest: seq<T.Msg>)

  /** `receiveFile` on a connection that delivers `inbox` and then fails. Every chunk for the path truncates the
      temporary file; the first final one is renamed into place. */
  function ReceiveOne(files: Replica, inbox: seq<T.Msg>, path: string, now: string -> int): Outcome
    decreases |inbox|
  {
    if inbox == [] then Outcome(false, files, [])
    else
      var m := inbox[0];
      if !(m.Chunk? && m.path == path) then ReceiveOne(files, inbox[1..], path, now)
      else
        var files1 := files[TempName(path) := File(m.data, now(path))];
        if m.final then Outcome(true, Rename(files1, TempName(path), path), inbox[1..])
        else ReceiveOne(files1, inbox[1..], path, now)
  }

  /** How far a session gets, and with what. */
  datatype Session = Session(count: nat, files: Replica, rest: seq<T.Msg>)

  function ReceiveAll(files: Replica, inbox: seq<T.Msg>, needs: seq<string>, now: string -> int): (s: Session)
    ensures s.count <= |needs|
    decreases |needs|
  {
    if needs == [] then Session(0, files, inbox)
    else
      var one := ReceiveOne(files, inbox, needs[0], now);
      if !one.ok then Session(0, one.files, one.rest)
      else
        var s := ReceiveAll(one.files, one.rest, needs[1..], now);
        s.(count := s.count + 1)
  }

  function Oks(paths: seq<string>): (r: seq<T.Msg>)
    ensures |r| == |paths|
  {
    seq(|paths|, i requires 0 <= i < |paths| => T.ApplyOk(paths[i]))
  }

  /** What a provider sends for a list of paths. */
  function Answer(w: T.World, content: map<string, Content>, ps: seq<string>): seq<T.Msg>
    requires w.readable <= content.Keys
  {
    if ps == [] then []
    else
      var n := |ps| - 1;
      Answer(w, content, ps[..n]) + if T.Sendable(w, ps[n]) then [T.Chunk(ps[n], content[ps[n]], true)] else []
  }

  // ---------------------------------------------------------------- the code

  /** One end of a connection: what it will deliver before it fails, and what has been written to it. */
  class Conn {
    var inbox: seq<T.Msg>
    var outbox: seq<T.Msg>
  }

  class Engine {
    const rules: Rules
    const dir: Direction
    const ignored: string -> bool
    const chunkSize: (string, Content) -> nat
    var files: Replica
    /** Files `os.Stat` finds but `os.ReadFile` cannot read. */
    var unreadable: set<string>

    function World(): T.World
      reads this
    {
      T.World(ignored, files.Keys, files.Keys - unreadable, chunkSize)
    }

    function Held(): map<string, Content>
      reads this
    {
      Contents(files)
    }

    /** The first loop of `applyManifest`: rename what clashes, list what is needed. `from` are the places in the
        manifest of what is needed, from front to back. */
    method Collect(entries: seq<Entry>, stamp: string) returns (needed: seq<string>, ghost from: seq<nat>)
      modifies this`files
      ensures Plan(files, needed) == Decide(rules, dir, old(files), entries, stamp)
      ensures Picks(from, |entries|) && |from| == |needed|
      ensures forall i :: 0 <= i < |needed| ==> needed[i] == entries[from[i]].path && !rules.hidden(needed[i])
    {
      needed, from := [], [];
      for i := 0 to |entries|
        invariant Plan(files, needed) == Decide(rules, dir, old(files), entries[..i], stamp)
        invariant Picks(from, i) && |from| == |needed|
        invariant forall j :: 0 <= j < |needed| ==> needed[j] == entries[from[j]].path && !rules.hidden(needed[j])
      {
        var e := entries[i];
        DecideSnoc(rules, dir, old(files), entries, i, stamp);
        PicksMore(from, i);
        if rules.hidden(e.path) {
          continue;
        }
        if ShouldSkip(rules, dir, files, e) {
          continue;
        }
        var exists_ := e.path in files;
        if !exists_ || rules.hash(files[e.path].content) != e.hash {
          if exists_ && dir.Bidirectional? {
            if files[e.path].mtime > e.mtime {
              continue;
            }
            if files[e.path].mtime == e.mtime {
              files := Rename(files, e.path, ConflictName(e.path, stamp));
              continue;
            }
          }
          needed, from := needed + [e.path], from + [i];
        }
      }
      assert entries[..|entries|] == entries;
    }

    /** The receiving side of one manifest: rename what clashes, ask for what is needed, install what comes. */
    method ApplyManifest(conn: Conn, entries: seq<Entry>, stamp: string, now: string -> int) returns (done: bool)
      modifies this`files, conn
      ensures var plan := Decide(rules, dir, old(files), entries, stamp);
              var s := ReceiveAll(plan.files, old(conn.inbox), plan.needed, now);
              && files == s.files
              && (done <==> s.count == |plan.needed|)
              && conn.inbox == s.rest
              && conn.outbox == old(conn.outbox)
                   + (if plan.needed == [] then [] else [T.Need(plan.needed)] + Oks(plan.needed[..s.count]))
    {
      var needed, from := Collect(entries, stamp);
      if needed == [] {
        return true;
      }
      conn.outbox := conn.outbox + [T.Need(needed)];
      done := ReceiveFiles(conn, needed, now);
    }

    /** The second loop of `applyManifest`: one `receiveFile` after the other until one fails. */
    method ReceiveFiles(conn: Conn, needed: seq<string>, now: string -> int) returns (done: bool)
      modifies this`files, conn
      ensures var s := ReceiveAll(old(files), old(conn.inbox), needed, now);
              && files == s.files && conn.inbox == s.rest
              && (done <==> s.count == |needed|)
              && conn.outbox == old(conn.outbox) + Oks(needed[..s.count])
    {
      ghost var goal := ReceiveAll(files, conn.inbox, needed, now);
      for i := 0 to |needed|
        invariant i <= goal.count
        invariant var s := ReceiveAll(files, conn.inbox, needed[i..], now);
                  goal == Session(i + s.count, s.files, s.rest)
        invariant conn.outbox == old(conn.outbox) + Oks(needed[..i])
      {
        OneMore(files, conn.inbox, needed, i, now);
        var ok := ReceiveFile(conn, needed[i], now);
        if !ok {
          return false;
        }
      }
      assert needed[..|needed|] == needed;
      done := true;
    }

    method ReceiveFile(conn: Conn, path: string, now: string -> int) returns (ok: bool)
      modifies this`files, conn
      ensures Outcome(ok, files, conn.inbox) == ReceiveOne(old(files), old(conn.inbox), path, now)
      ensures conn.outbox == old(conn.outbox) + if ok then [T.ApplyOk(path)] else []
    {
      while conn.inbox != []
        invariant ReceiveOne(files, conn.inbox, path, now) == ReceiveOne(old(files), old(conn.inbox), path, now)
        invariant conn.outbox == old(conn.outbox)
        decreases |conn.inbox|
      {
        var m := conn.inbox[0];
        conn.inbox := conn.inbox[1..];
        if !m.Chunk? || m.path != path {
          continue;
        }
        files := files[TempName(path) := File(m.data, now(path))];
        if m.final {
          files := Rename(files, TempName(path), path);
          conn.outbox := conn.outbox + [T.ApplyOk(path)];
          return true;
        }
      }
      return false;
    }

    /** What is sent for a path on a NEED, if anything. */
    predicate Serves(p: string)
      reads this
    {
      p in files && p !in unreadable && !ignored(p)
    }

    /** The sending side of one NEED. The first pass only counts; when nothing can be found nothing is sent. What is
        sent are whole files, each in one final chunk: those of the paths asked for that exist, can be read and are
        not ignored, all of them, in the order of the request. */
    method SendFiles(conn: Conn, paths: seq<string>) returns (ghost from: seq<nat>)
      modifies conn
      ensures conn.inbox == old(conn.inbox)
      ensures Picks(from, |paths|) && |conn.outbox| == |old(conn.outbox)| + |from| && old(conn.outbox) <= conn.outbox
      ensures forall j :: 0 <= j < |paths| ==>
                (j in from <==> paths[j] in files && paths[j] !in unreadable && !ignored(paths[j]))
      ensures forall i :: 0 <= i < |from| ==>
                var p := paths[from[i]];
                p in files && conn.outbox[|old(conn.outbox)| + i] == T.Chunk(p, files[p].content, true)
      ensures conn.outbox == old(conn.outbox) + Answer(World(), Held(), paths)
    {
      var sizes := Sizes(paths);
      if |sizes| == 0 {
        NothingToSend(World(), Held(), paths);
        return [];
      }
      from := SendEach(conn, paths);
      ChunksAreAnswer(World(), Held(), paths, from, conn.outbox[|old(conn.outbox)|..]);
      assert conn.outbox == old(conn.outbox) + conn.outbox[|old(conn.outbox)|..];
    }

    /** The first pass of `sendFiles`. */
    method Sizes(paths: seq<string>) returns (sizes: map<string, nat>)
      ensures forall p :: p in sizes <==> p in paths && p in files && !ignored(p)
    {
      sizes := map[];
      for i := 0 to |paths|
        invariant forall p :: p in sizes <==> p in paths[..i] && p in files && !ignored(p)
      {
        assert paths[..i + 1] == paths[..i] + [paths[i]];
        if ignored(paths[i]) {
          continue;
        }
        if paths[i] in files {
          sizes := sizes[paths[i] := |files[paths[i]].content|];
        }
      }
      assert paths[..|paths|] == paths;
    }

    /** The second pass. */
    method SendEach(conn: Conn, paths: seq<string>) returns (ghost from: seq<nat>)
      modifies conn
      ensures conn.inbox == old(conn.inbox) && Picks(from, |paths|)
      ensures forall j :: 0 <= j < |paths| ==> (j in from <==> Serves(paths[j]))
      ensures old(conn.outbox) <= conn.outbox && AreChunks(conn.outbox[|old(conn.outbox)|..], Held(), paths, from)
    {
      from := [];
      ghost var added, held := [], Held();
      for i := 0 to |paths|
        invariant conn.inbox == old(conn.inbox) && conn.outbox == old(conn.outbox) + added
        invariant Picks(from, i) && forall j :: 0 <= j < i ==> (j in from <==> Serves(paths[j]))
        invariant held == Held() && AreChunks(added, held, paths, from)
      {
        PicksMore(from, i);
        var p := paths[i];
        if ignored(p) {
          continue;
        }
        if p !in files || p in unreadable {
          continue;
        }
        conn.outbox := conn.outbox + [T.Chunk(p, files[p].content, true)];
        added, from := added + [T.Chunk(p, files[p].content, true)], from + [i];
      }
      assert conn.outbox[|old(conn.outbox)|..] == added;
    }
  }

  /** The chunk for each of the paths at the positions `from`. */
  predicate AreChunks(added: seq<T.Msg>, held: map<string, Content>, paths: seq<string>, from: seq<nat>) {
    |added| == |from| && forall i :: 0 <= i < |from| ==>
      from[i] < |paths| && paths[from[i]] in held && added[i] == T.Chunk(paths[from[i]], held[paths[from[i]]], true)
  }

  /** The chunks of all paths that can be sent, in order, are the answer. */
  lemma {:induction false} ChunksAreAnswer(w: T.World, held: map<string, Content>, paths: seq<string>, from: seq<nat>, added: seq<T.Msg>)
    requires w.readable <= held.Keys && Picks(from, |paths|) && AreChunks(added, held, paths, from)
    requires forall j :: 0 <= j < |paths| ==> (j in from <==> T.Sendable(w, paths[j]))
    ensures added == Answer(w, held, paths)
    decreases |paths|
  {
    if paths != [] {
      var n := |paths| - 1;
      if T.Sendable(w, paths[n]) {
        LastPick(from, n);
        var m := |from| - 1;
        FrontChunks(held, paths, from[..m], added[..m], n);
        assert forall j :: 0 <= j < n ==> (j in from[..m] <==> j in from);
        ChunksAreAnswer(w, held, paths[..n], from[..m], added[..m]);
        assert added == added[..m] + [added[m]];
      } else {
        assert forall i :: 0 <= i < |from| ==> from[i] in from && from[i] != n;
        FrontChunks(held, paths, from, added, n);
        ChunksAreAnswer(w, held, paths[..n], from, added);
        assert added + [] == added;
      }
    }
  }

  lemma LastPick(from: seq<nat>, n: nat)
    requires Picks(from, n + 1) && n in from
    ensures from != [] && from[|from| - 1] == n && Picks(from[..|from| - 1], n)
    ensures forall j :: j in from <==> j == n || j in from[..|from| - 1]
  {
    var i :| 0 <= i < |from| && from[i] == n;
    assert from[i] <= from[|from| - 1] <= n;
    assert i == |from| - 1;
    assert from == from[..i] + [n];
  }

  lemma FrontChunks(held: map<string, Content>, paths: seq<string>, from: seq<nat>, added: seq<T.Msg>, n: nat)
    requires n <= |paths| && AreChunks(added, held, paths, from) && forall i :: 0 <= i < |from| ==> from[i] < n
    ensures AreChunks(added, held, paths[..n], from)
  {
  }

  lemma DecideSnoc(r: Rules, dir: Direction, files: Replica, entries: seq<Entry>, i: nat, stamp: string)
    requires i < |entries|
    ensures Decide(r, dir, files, entries[..i + 1], stamp) == DecideOne(r, dir, Decide(r, dir, files, entries[..i], stamp), entries[i], stamp)
  {
    assert entries[..i + 1][..i] == entries[..i];
  }

  /** One step of the receiving loop. */
  lemma OneMore(files: Replica, inbox: seq<T.Msg>, needed: seq<string>, i: nat, now: string -> int)
    requires i < |needed|
    ensures var one := ReceiveOne(files, inbox, needed[i], now);
            ReceiveAll(files, inbox, needed[i..], now) ==
            if !one.ok then Session(0, one.files, one.rest)
            else
              var s := ReceiveAll(one.files, one.rest, needed[i + 1..], now);
              s.(count := s.count + 1)
    ensures Oks(needed[..i + 1]) == Oks(needed[..i]) + [T.ApplyOk(needed[i])]
  {
    assert needed[i..][0] == needed[i] && needed[i..][1..] == needed[i + 1..];
    assert needed[..i + 1] == needed[..i] + [needed[i]];
  }

  lemma {:induction false} NothingToSend(w: T.World, content: map<string, Content>, ps: seq<string>)
    requires T.Sane(w) && w.readable <= content.Keys
    requires forall i :: 0 <= i < |ps| ==> ps[i] !in w.statable || w.ignored(ps[i])
    ensures Answer(w, content, ps) == []
  {
    if ps != [] {
      NothingToSend(w, content, ps[..|ps| - 1]);
    }
  }

  // ---------------------------------------------------------------- what a stream of chunks installs

  predicate FinalFor(m: T.Msg, path: string) {
    m.Chunk? && m.path == path && m.final
  }

  function Install(files: Replica, path: string, data: Content, now: string -> int): Replica {
    (files - {TempName(path)})[path := File(data, now(path))]
  }

  /** A file is installed if a final chunk for it arrives, and it then holds that chunk's data alone, whatever
      non-final chunks came before; nothing else changes but the temporary file. */
  lemma {:induction false} FirstFinalWins(files: Replica, inbox: seq<T.Msg>, path: string, now: string -> int, k: nat)
    requires k < |inbox| && FinalFor(inbox[k], path) && forall j :: 0 <= j < k ==> !FinalFor(inbox[j], path)
    ensures ReceiveOne(files, inbox, path, now) == Outcome(true, Install(files, path, inbox[k].data, now), inbox[k + 1..])
    decreases k
  {
    var m := inbox[0];
    var files1 := if m.Chunk? && m.path == path then files[TempName(path) := File(m.data, now(path))] else files;
    assert files1 - {TempName(path)} == files - {TempName(path)};
    if k > 0 {
      assert forall j :: 0 <= j < k ==> inbox[1..][j] == inbox[j + 1];
      FirstFinalWins(files1, inbox[1..], path, now, k - 1);
      assert inbox[1..][k..] == inbox[k + 1..];
    } else {
      assert Rename(files1, TempName(path), path) == Install(files, path, m.data, now);
    }
  }

  /** Without one the call fails having consumed everything, and only the temporary file can have changed. */
  lemma {:induction false} NoFinalFails(files: Replica, inbox: seq<T.Msg>, path: string, now: string -> int)
    requires forall j :: 0 <= j < |inbox| ==> !FinalFor(inbox[j], path)
    ensures var o := ReceiveOne(files, inbox, path, now);
            !o.ok && o.rest == [] && o.files - {TempName(path)} == files - {TempName(path)}
    decreases |inbox|
  {
    if inbox != [] {
      var m := inbox[0];
      var files1 := if m.Chunk? && m.path == path then files[TempName(path) := File(m.data, now(path))] else files;
      assert files1 - {TempName(path)} == files - {TempName(path)};
      NoFinalFails(files1, inbox[1..], path, now);
    }
  }

  /** Messages that are not chunks are passed over; the first chunk, if it is final and for this path, is taken. */
  lemma {:induction false} TakesFirstChunk(files: Replica, inbox: seq<T.Msg>, path: string, now: string -> int)
    requires T.AllFinal(inbox) && T.Chunks(inbox) != [] && T.Chunks(inbox)[0].path == path
    ensures var o := ReceiveOne(files, inbox, path, now);
            && o.ok && o.files == Install(files, path, T.Chunks(inbox)[0].data, now)
            && T.Chunks(o.rest) == T.Chunks(inbox)[1..] && T.AllFinal(o.rest)
    decreases |inbox|
  {
    if inbox[0].Chunk? {
      var m := inbox[0];
      assert T.Chunks(inbox) == [T.Sent(m.path, m.data)] + T.Chunks(inbox[1..]);
      var temp := files[TempName(path) := File(m.data, now(path))];
      assert Rename(temp, TempName(path), path) == Install(files, path, m.data, now);
    } else {
      assert T.Chunks(inbox) == [] + T.Chunks(inbox[1..]);
      TakesFirstChunk(files, inbox[1..], path, now);
    }
  }

  lemma {:induction false} NeverComes(files: Replica, inbox: seq<T.Msg>, path: string, now: string -> int)
    requires path !in T.PathsOf(T.Chunks(inbox))
    ensures ReceiveOne(files, inbox, path, now) == Outcome(false, files, [])
    decreases |inbox|
  {
    if inbox != [] {
      var all, tail := T.PathsOf(T.Chunks(inbox)), T.PathsOf(T.Chunks(inbox[1..]));
      if inbox[0].Chunk? {
        assert all == [inbox[0].path] + tail;
        assert inbox[0].path in all;
      } else {
        assert T.Chunks(inbox) == [] + T.Chunks(inbox[1..]) == T.Chunks(inbox[1..]);
        assert all == tail;
      }
      assert path !in tail;
      NeverComes(files, inbox[1..], path, now);
    }
  }

  lemma {:induction false} AnswerCons(w: T.World, content: map<string, Content>, ps: seq<string>)
    requires w.readable <= content.Keys && ps != []
    ensures Answer(w, content, ps) ==
            (if T.Sendable(w, ps[0]) then [T.Chunk(ps[0], content[ps[0]], true)] else []) + Answer(w, content, ps[1..])
  {
    var n := |ps| - 1;
    if n > 0 {
      AnswerCons(w, content, ps[..n]);
      assert ps[..n][1..] == ps[1..][..n - 1];
    }
  }

  /** The provider's chunks are the sendable paths, in order, each with its own content. */
  lemma {:induction false} AnswerChunks(w: T.World, content: map<string, Content>, ps: seq<string>)
    requires w.readable <= content.Keys
    ensures T.PathsOf(T.Chunks(Answer(w, content, ps))) == T.Filter(w, ps)
    ensures T.AllFinal(Answer(w, content, ps))
  {
    if ps != [] {
      AnswerCons(w, content, ps);
      AnswerChunks(w, content, ps[1..]);
      var tail := Answer(w, content, ps[1..]);
      if T.Sendable(w, ps[0]) {
        var c := T.Chunk(ps[0], content[ps[0]], true);
        assert ([c] + tail)[1..] == tail;
        assert T.PathsOf(T.Chunks([c] + tail)) == [ps[0]] + T.PathsOf(T.Chunks(tail));
      } else {
        assert [] + tail == tail;
      }
    }
  }

  function Installed(files: Replica, content: map<string, Content>, ps: seq<string>, now: string -> int): Replica
    requires forall i :: 0 <= i < |ps| ==> ps[i] in content
    decreases |ps|
  {
    if ps == [] then files else Installed(Install(files, ps[0], content[ps[0]], now), content, ps[1..], now)
  }

  /** The chunks of the provider's answer that reach the receiver: the connection ends with the first one that is
      too large. */
  function Arriving(w: T.World, content: map<string, Content>, needs: seq<string>): seq<T.Sent>
    requires w.readable <= content.Keys
  {
    var cs := T.Chunks(Answer(w, content, needs));
    cs[..T.FitCount(w, cs)]
  }

  lemma ArrivingCons(w: T.World, content: map<string, Content>, needs: seq<string>)
    requires w.readable <= content.Keys && needs != [] && T.Sendable(w, needs[0])
    ensures var c := T.Sent(needs[0], content[needs[0]]);
            Arriving(w, content, needs) == if T.Fits(w, c) then [c] + Arriving(w, content, needs[1..]) else []
  {
    AnswerCons(w, content, needs);
    var c := T.Sent(needs[0], content[needs[0]]);
    var m, tail := T.Chunk(needs[0], content[needs[0]], true), Answer(w, content, needs[1..]);
    assert ([m] + tail)[1..] == tail;
    var cs := T.Chunks(Answer(w, content, needs));
    assert cs == [c] + T.Chunks(tail);
    assert cs[1..] == T.Chunks(tail);
  }

  lemma NotArriving(w: T.World, content: map<string, Content>, needs: seq<string>, p: string)
    requires w.readable <= content.Keys && !T.Sendable(w, p)
    ensures p !in T.PathsOf(Arriving(w, content, needs))
  {
    AnswerChunks(w, content, needs);
    T.FilterSendable(w, needs);
    var cs := T.Chunks(Answer(w, content, needs));
    var part := Arriving(w, content, needs);
    assert forall i :: 0 <= i < |part| ==> T.PathsOf(part)[i] == T.PathsOf(cs)[i] == T.Filter(w, needs)[i];
  }

  lemma InstalledCons(w: T.World, content: map<string, Content>, files: Replica, needs: seq<string>, now: string -> int)
    requires needs != [] && T.Deliverable(w, content, needs[0])
    ensures var n := T.DeliverablePrefix(w, content, needs);
            && n == 1 + T.DeliverablePrefix(w, content, needs[1..])
            && Installed(files, content, needs[..n], now) ==
               Installed(Install(files, needs[0], content[needs[0]], now), content, needs[1..][..n - 1], now)
  {
    var n := T.DeliverablePrefix(w, content, needs);
    assert needs[..n][1..] == needs[1..][..n - 1];
  }

  /** However the provider's answer is interleaved with other messages, the session installs exactly the longest
      prefix of the request whose members can all be sent and are not too large, each with the provider's content. */
  lemma {:induction false} ReceivesThePrefix(w: T.World, content: map<string, Content>, files: Replica, inbox: seq<T.Msg>,
                                             needs: seq<string>, now: string -> int)
    requires w.readable <= content.Keys
    requires T.AllFinal(inbox) && T.Chunks(inbox) == Arriving(w, content, needs)
    ensures var s := ReceiveAll(files, inbox, needs, now);
            && s.count == T.DeliverablePrefix(w, content, needs)
            && s.files == Installed(files, content, needs[..s.count], now)
    decreases |needs|
  {
    if needs != [] {
      var p := needs[0];
      if T.Deliverable(w, content, p) {
        ArrivingCons(w, content, needs);
        TakesFirstChunk(files, inbox, p, now);
        var o := ReceiveOne(files, inbox, p, now);
        ReceivesThePrefix(w, content, o.files, o.rest, needs[1..], now);
        InstalledCons(w, content, files, needs, now);
      } else {
        if T.Sendable(w, p) {
          ArrivingCons(w, content, needs);
        } else {
          NotArriving(w, content, needs, p);
        }
        NeverComes(files, inbox, p, now);
        assert needs[..0] == [];
      }
    }
  }

  /** A call that succeeds has read up to and including the final chunk of its path. */
  lemma {:induction false} ReadsUpTo(files: Replica, inbox: seq<T.Msg>, path: string, now: string -> int) returns (k: nat)
    requires ReceiveOne(files, inbox, path, now).ok
    ensures k < |inbox| && FinalFor(inbox[k], path) && (forall j :: 0 <= j < k ==> !FinalFor(inbox[j], path))
    ensures ReceiveOne(files, inbox, path, now).rest == inbox[k + 1..]
    decreases |inbox|
  {
    if FinalFor(inbox[0], path) {
      k := 0;
    } else {
      var m := inbox[0];
      var files1 := if m.Chunk? && m.path == path then files[TempName(path) := File(m.data, now(path))] else files;
      var n := ReadsUpTo(files1, inbox[1..], path, now);
      k := n + 1;
      assert inbox[1..][n + 1..] == inbox[k + 1..];
    }
  }

  /** A session reads no further than it must: one that completes leaves everything behind the final chunk of its last
      path unread, and one that fails has read all there was. */
  lemma {:induction false} SessionLeaves(files: Replica, inbox: seq<T.Msg>, needs: seq<string>, now: string -> int) returns (k: nat)
    ensures var s := ReceiveAll(files, inbox, needs, now);
            && k <= |inbox|
            && (s.count == |needs| ==> s.rest == inbox[k..])
            && (s.count < |needs| ==> s.rest == [])
            && (needs == [] ==> k == 0)
            && (needs != [] && s.count == |needs| ==> k > 0 && FinalFor(inbox[k - 1], needs[|needs| - 1]))
    decreases |needs|
  {
    k := 0;
    if needs != [] {
      var one := ReceiveOne(files, inbox, needs[0], now);
      if one.ok {
        var m := ReadsUpTo(files, inbox, needs[0], now);
        var n := SessionLeaves(one.files, one.rest, needs[1..], now);
        k := m + 1 + n;
        assert inbox[m + 1..][n..] == inbox[k..];
      } else {
        FailsEmpty(files, inbox, needs[0], now);
      }
    }
  }

  lemma {:induction false} FailsEmpty(files: Replica, inbox: seq<T.Msg>, path: string, now: string -> int)
    requires !ReceiveOne(files, inbox, path, now).ok
    ensures ReceiveOne(files, inbox, path, now).rest == []
    decreases |inbox|
  {
    if inbox != [] {
      var m := inbox[0];
      var files1 := if m.Chunk? && m.path == path then files[TempName(path) := File(m.data, now(path))] else files;
      FailsEmpty(files1, inbox[1..], path, now);
    }
  }

  // ---------------------------------------------------------------- a whole exchange, end to end

  /** Temporary names are hidden, so none of them is ever asked for. */
  ghost predicate TempsHidden(r: Rules) {
    forall p :: r.hidden(TempName(p))
  }

  /** The real test for temporary names sees to that. */
  lemma RealTestHidesTemps(r: Rules)
    requires forall p :: Pruning.IsTempRel(p) ==> r.hidden(p)
    ensures TempsHidden(r)
  {
    forall p
      ensures r.hidden(TempName(p))
    {
      Pruning.ReceivedNamesAreTemp(p);
    }
  }

  predicate IsTempOf(ps: seq<string>, q: string) {
    exists i :: 0 <= i < |ps| && q == TempName(ps[i])
  }

  lemma {:induction false} InstalledAt(r: Rules, files: Replica, content: map<string, Content>, ps: seq<string>, now: string -> int, q: string)
    requires TempsHidden(r)
    requires forall i :: 0 <= i < |ps| ==> ps[i] in content && !r.hidden(ps[i])
    ensures var f := Installed(files, content, ps, now);
            if q in ps then q in f && f[q] == File(content[q], now(q))
            else if IsTempOf(ps, q) then q !in f
            else (q in f <==> q in files) && (q in f ==> f[q] == files[q])
    decreases |ps|
  {
    if ps != [] {
      var rest := ps[1..];
      assert ps == [ps[0]] + rest;
      InstalledAt(r, Install(files, ps[0], content[ps[0]], now), content, rest, now, q);
      TempTail(ps, q);
    }
  }

  lemma TempTail(ps: seq<string>, q: string)
    requires ps != []
    ensures IsTempOf(ps, q) <==> q == TempName(ps[0]) || IsTempOf(ps[1..], q)
  {
    if IsTempOf(ps[1..], q) {
      var i :| 0 <= i < |ps| - 1 && q == TempName(ps[1..][i]);
      assert q == TempName(ps[i + 1]);
    }
    if IsTempOf(ps, q) && q != TempName(ps[0]) {
      var i :| 0 <= i < |ps| && q == TempName(ps[i]);
      assert q == TempName(ps[1..][i - 1]);
    }
  }

  /** Decision, request, answer and installation put together: the session completes if and only if the sender can
      deliver all that is wanted, and the receiver is then left with the path-by-path result, temporary names aside. */
  lemma EndToEnd(r: Rules, dir: Direction, w: T.World, a: Replica, b: Replica, entries: seq<Entry>, inbox: seq<T.Msg>,
                 stamp: string, now: string -> int)
    requires CollisionFree(r) && TempsHidden(r) && FreshStamp(a, b, stamp) && IsManifest(r, a, entries)
    requires w.readable <= a.Keys
    requires T.AllFinal(inbox) && T.Chunks(inbox) == Arriving(w, Contents(a), Decide(r, dir, b, entries, stamp).needed)
    ensures var plan := Decide(r, dir, b, entries, stamp);
            var s := ReceiveAll(plan.files, inbox, plan.needed, now);
            && (s.count == |plan.needed| <==> forall p :: Wants(r, dir, a, b, p) ==> T.Deliverable(w, Contents(a), p))
            && (s.count == |plan.needed| ==>
                  s.files == Merged(r, dir, a, b, stamp, now) - set p | p in plan.needed :: TempName(p))
  {
    var plan := Decide(r, dir, b, entries, stamp);
    ExchangeIsMerged(r, dir, a, b, entries, stamp, now);
    ReceivesThePrefix(w, Contents(a), plan.files, inbox, plan.needed, now);
    AllDeliverableIff(w, Contents(a), plan.needed);
    if T.DeliverablePrefix(w, Contents(a), plan.needed) == |plan.needed| {
      assert plan.needed[..|plan.needed|] == plan.needed;
      MembersByIndex(plan.needed);
      InstalledIsExchange(r, a, plan, Contents(a), now);
    }
  }

  function Contents(a: Replica): map<string, Content> {
    map p | p in a :: a[p].content
  }

  lemma MembersByIndex(s: seq<string>)
    ensures forall i :: 0 <= i < |s| ==> s[i] in s
  {
  }

  lemma AllDeliverableIff(w: T.World, content: map<string, Content>, ps: seq<string>)
    ensures T.DeliverablePrefix(w, content, ps) == |ps| <==> forall p :: p in ps ==> T.Deliverable(w, content, p)
  {
    var n := T.DeliverablePrefix(w, content, ps);
    if n < |ps| {
      assert ps[n] in ps;
    }
  }

  lemma InstalledIsExchange(r: Rules, a: Replica, plan: Plan, content: map<string, Content>, now: string -> int)
    requires TempsHidden(r) && content == Contents(a)
    requires forall p :: p in plan.needed ==> Visible(r, a, p)
    requires forall i :: 0 <= i < |plan.needed| ==> plan.needed[i] in content && !r.hidden(plan.needed[i])
    ensures Installed(plan.files, content, plan.needed, now)
            == plan.files + Received(plan.needed, a, now)
               - set p | p in plan.needed :: TempName(p)
  {
    var needed := plan.needed;
    forall q
      ensures var f := Installed(plan.files, content, needed, now);
              var g := plan.files + Received(needed, a, now)
                       - set p | p in needed :: TempName(p);
              (q in f <==> q in g) && (q in f ==> f[q] == g[q])
    {
      InstalledAt(r, plan.files, content, needed, now, q);
      assert IsTempOf(needed, q) <==> exists p :: p in needed && q == TempName(p);
    }
  }
}
