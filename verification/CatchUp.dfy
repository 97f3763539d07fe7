/** The scans that feed the index of known files, and the incremental push that relies on it. */
module CatchUp {
  import opened Walk
  import opened Order

  /** The `file_state` table of one sync group. */
  type Index = map<string, Meta>

  function Reindex(index: Index, fs: seq<Found>): Index
    decreases |fs|
  {
    if fs == [] then index else Reindex(index[fs[0].path := fs[0].meta], fs[1..])
  }

  /** Same size and modification time as recorded. */
  predicate Unchanged(index: Index, f: Found) {
    f.path in index && index[f.path].size == f.meta.size && index[f.path].mtime == f.meta.mtime
  }

  datatype Scan = Scan(changed: seq<Found>, index: Index)

  /** `CatchUp`'s visit of the files, in order, with the index as it goes. */
  function Delta(index: Index, fs: seq<Found>): Scan
    decreases |fs|
  {
    if fs == [] then Scan([], index)
    else if Unchanged(index, fs[0]) then Delta(index, fs[1..])
    else
      var rest := Delta(index[fs[0].path := fs[0].meta], fs[1..]);
      rest.(changed := [fs[0]] + rest.changed)
  }

  // ---------------------------------------------------------------- the code

  lemma {:induction false} ReindexAppend(index: Index, a: seq<Found>, b: seq<Found>)
    ensures Reindex(index, a + b) == Reindex(Reindex(index, a), b)
    decreases |a|
  {
    if a == [] {
      assert a + b == b;
    } else {
      assert (a + b)[1..] == a[1..] + b;
      ReindexAppend(index[a[0].path := a[0].meta], a[1..], b);
    }
  }

  lemma {:induction false} DeltaAppend(index: Index, a: seq<Found>, b: seq<Found>)
    ensures var x := Delta(index, a);
            var y := Delta(x.index, b);
            Delta(index, a + b) == Scan(x.changed + y.changed, y.index)
    decreases |a|
  {
    if a == [] {
      assert a + b == b;
    } else {
      assert (a + b)[1..] == a[1..] + b;
      if Unchanged(index, a[0]) {
        DeltaAppend(index, a[1..], b);
      } else {
        DeltaAppend(index[a[0].path := a[0].meta], a[1..], b);
      }
    }
  }

  lemma {:induction false} WalkAllAppend(k: Skips, at: seq<string>, nodes: seq<Node>, i: nat)
    requires i < |nodes|
    ensures WalkAll(k, at, nodes[..i + 1]) == WalkAll(k, at, nodes[..i]) + Walk.Walk(k, at + [nodes[i].name], nodes[i])
  {
    if i == 0 {
      assert nodes[..1][1..] == [];
    } else {
      assert nodes[..i + 1][1..] == nodes[1..][..i] && nodes[..i][1..] == nodes[1..][..i - 1];
      WalkAllAppend(k, at, nodes[1..], i - 1);
    }
  }

  class Scanner {
    const skips: Skips
    var index: Index

    /** `buildManifestForFolder` below one node: every file found is listed and recorded. */
    method Build(at: seq<string>, node: Node) returns (files: seq<Found>)
      modifies this
      ensures files == Walk.Walk(skips, at, node)
      ensures index == Reindex(old(index), files)
      decreases node
    {
      var rel := Paths.Join(at);
      match node
      case Leaf(_, symlink, meta) =>
        if symlink || skips.temp(rel) || skips.ignored(rel) {
          return [];
        }
        index := index[rel := meta];
        return [Found(rel, meta)];
      case Dir(_, children) =>
        files := [];
        if Pruned(skips, rel) {
          return;
        }
        for i := 0 to |children|
          invariant files == WalkAll(skips, at, children[..i])
          invariant index == Reindex(old(index), files)
        {
          var more := Build(at + [children[i].name], children[i]);
          WalkAllAppend(skips, at, children, i);
          ReindexAppend(old(index), files, more);
          files := files + more;
        }
        assert children[..|children|] == children;
    }

    method ScanNode(at: seq<string>, node: Node) returns (changed: seq<Found>)
      modifies this
      ensures Scan(changed, index) == Delta(old(index), Walk.Walk(skips, at, node))
      decreases node
    {
      var rel := Paths.Join(at);
      match node
      case Leaf(_, symlink, meta) =>
        if symlink || skips.temp(rel) || skips.ignored(rel) {
          return [];
        }
        if rel in index && index[rel].size == meta.size && index[rel].mtime == meta.mtime {
          return [];
        }
        index := index[rel := meta];
        return [Found(rel, meta)];
      case Dir(_, children) =>
        changed := [];
        if Pruned(skips, rel) {
          return;
        }
        for i := 0 to |children|
          invariant Scan(changed, index) == Delta(old(index), WalkAll(skips, at, children[..i]))
        {
          var more := ScanNode(at + [children[i].name], children[i]);
          WalkAllAppend(skips, at, children, i);
          DeltaAppend(old(index), WalkAll(skips, at, children[..i]), Walk.Walk(skips, at + [children[i].name], children[i]));
          changed := changed + more;
        }
        assert children[..|children|] == children;
    }

    /** The manifest `CatchUp` sends; nothing is scanned when there is nobody to send to. */
    method Run(canSend: bool, peerCount: nat, root: Node) returns (manifest: seq<Found>)
      modifies this
      ensures !canSend || peerCount == 0 ==> manifest == [] && index == old(index)
      ensures canSend && peerCount > 0 ==> Scan(manifest, index) == Delta(old(index), Walk.Walk(skips, [], root))
    {
      if !canSend || peerCount == 0 {
        return [];
      }
      manifest := ScanNode([], root);
    }
  }

  // ---------------------------------------------------------------- the delta against the full manifest

  function Changed(index: Index, fs: seq<Found>): seq<Found> {
    if fs == [] then [] else (if Unchanged(index, fs[0]) then [] else [fs[0]]) + Changed(index, fs[1..])
  }

  /** Equal size and time mean equal content. */
  predicate FaithfulStamps(index: Index, fs: seq<Found>) {
    forall i :: 0 <= i < |fs| && fs[i].path in index
                && index[fs[i].path].size == fs[i].meta.size && index[fs[i].path].mtime == fs[i].meta.mtime ==>
      index[fs[i].path].hash == fs[i].meta.hash
  }

  lemma NoRepeatsTail(fs: seq<Found>)
    requires fs != [] && NoRepeats(fs)
    ensures NoRepeats(fs[1..]) && forall i :: 0 <= i < |fs| - 1 ==> fs[1..][i].path != fs[0].path
  {
    forall i | 0 <= i < |fs| - 1
      ensures fs[1..][i].path != fs[0].path
    {
      assert fs[1..][i] == fs[i + 1];
    }
  }

  lemma {:induction false} ChangedElsewhere(index: Index, fs: seq<Found>, p: string, m: Meta)
    requires forall i :: 0 <= i < |fs| ==> fs[i].path != p
    ensures Changed(index[p := m], fs) == Changed(index, fs)
  {
    if fs != [] {
      ChangedElsewhere(index, fs[1..], p, m);
    }
  }

  /** Since a walk lists each file once, looking at the moving index is looking at the old one. */
  lemma {:induction false} DeltaIsChanged(index: Index, fs: seq<Found>)
    requires NoRepeats(fs)
    ensures Delta(index, fs) == Scan(Changed(index, fs), Reindex(index, Changed(index, fs)))
    decreases |fs|
  {
    if fs != [] {
      NoRepeatsTail(fs);
      if Unchanged(index, fs[0]) {
        DeltaIsChanged(index, fs[1..]);
        assert Changed(index, fs) == Changed(index, fs[1..]);
      } else {
        DeltaIsChanged(index[fs[0].path := fs[0].meta], fs[1..]);
        ChangedElsewhere(index, fs[1..], fs[0].path, fs[0].meta);
        assert Changed(index, fs)[1..] == Changed(index, fs[1..]);
      }
    }
  }

  /** The positions of the files that have changed. */
  ghost predicate Points(index: Index, fs: seq<Found>, from: seq<nat>) {
    && Picks(from, |fs|)
    && forall j :: 0 <= j < |fs| ==> (j in from <==> !Unchanged(index, fs[j]))
  }

  lemma PointsCons(index: Index, fs: seq<Found>, rest: seq<nat>)
    requires fs != [] && Points(index, fs[1..], rest)
    ensures Points(index, fs, if Unchanged(index, fs[0]) then Shifted(rest) else [0] + Shifted(rest))
  {
    PicksShifted(rest, |fs| - 1);
    forall j | 0 <= j < |fs|
      ensures j in Shifted(rest) <==> j > 0 && !Unchanged(index, fs[j])
    {
      InShifted(rest, j);
      assert j > 0 ==> fs[j] == fs[1..][j - 1];
    }
  }

  /** The changed files are those at the positions `from`. */
  predicate AreAt(changed: seq<Found>, fs: seq<Found>, from: seq<nat>) {
    |from| == |changed| && forall i :: 0 <= i < |from| ==> from[i] < |fs| && changed[i] == fs[from[i]]
  }

  lemma AreAtCons(changed: seq<Found>, fs: seq<Found>, rest: seq<nat>)
    requires fs != [] && AreAt(changed, fs[1..], rest)
    ensures AreAt(changed, fs, Shifted(rest)) && AreAt([fs[0]] + changed, fs, [0] + Shifted(rest))
  {
    assert forall i :: 0 <= i < |rest| ==> fs[1..][rest[i]] == fs[rest[i] + 1];
  }

  lemma ChangedCons(index: Index, fs: seq<Found>)
    requires fs != []
    ensures Changed(index, fs) == if Unchanged(index, fs[0]) then Changed(index, fs[1..]) else [fs[0]] + Changed(index, fs[1..])
  {
  }

  lemma {:induction false} ChangedKeepsOrder(index: Index, fs: seq<Found>) returns (from: seq<nat>)
    ensures Points(index, fs, from) && AreAt(Changed(index, fs), fs, from)
  {
    if fs == [] {
      from := [];
    } else {
      var rest := ChangedKeepsOrder(index, fs[1..]);
      PointsCons(index, fs, rest);
      AreAtCons(Changed(index, fs[1..]), fs, rest);
      ChangedCons(index, fs);
      from := if Unchanged(index, fs[0]) then Shifted(rest) else [0] + Shifted(rest);
    }
  }

  lemma InShifted(rest: seq<nat>, j: nat)
    ensures j in Shifted(rest) <==> j > 0 && j - 1 in rest
  {
    if j > 0 && j - 1 in rest {
      var i :| 0 <= i < |rest| && rest[i] == j - 1;
      assert Shifted(rest)[i] == j;
    }
  }

  /** Exactly what the incremental scan lists: of the files that are found, in the order in which they are found, those
      that the index does not have, or has with another size or another time. */
  lemma DeltaListsIff(index: Index, fs: seq<Found>) returns (from: seq<nat>)
    requires NoRepeats(fs)
    ensures Picks(from, |fs|) && |from| == |Delta(index, fs).changed|
    ensures forall i :: 0 <= i < |from| ==> Delta(index, fs).changed[i] == fs[from[i]]
    ensures forall j :: 0 <= j < |fs| ==>
              (j in from <==>
                || fs[j].path !in index
                || index[fs[j].path].size != fs[j].meta.size || index[fs[j].path].mtime != fs[j].meta.mtime)
  {
    DeltaIsChanged(index, fs);
    from := ChangedKeepsOrder(index, fs);
  }

  lemma {:induction false} ReindexElsewhere(index: Index, fs: seq<Found>, p: string)
    requires forall i :: 0 <= i < |fs| ==> fs[i].path != p
    ensures p in Reindex(index, fs) <==> p in index
    ensures p in index ==> Reindex(index, fs)[p] == index[p]
    decreases |fs|
  {
    if fs != [] {
      ReindexElsewhere(index[fs[0].path := fs[0].meta], fs[1..], p);
    }
  }

  lemma {:induction false} ChangedIsPart(index: Index, fs: seq<Found>, p: string)
    requires forall i :: 0 <= i < |fs| ==> fs[i].path != p
    ensures forall i :: 0 <= i < |Changed(index, fs)| ==> Changed(index, fs)[i].path != p
  {
    if fs != [] {
      ChangedIsPart(index, fs[1..], p);
    }
  }

  /** What the index says of a listed file after the scan. */
  lemma {:induction false} IndexAfter(index: Index, fs: seq<Found>, i: nat)
    requires NoRepeats(fs) && i < |fs|
    ensures var after := Delta(index, fs).index;
            fs[i].path in after && after[fs[i].path] == if Unchanged(index, fs[i]) then index[fs[i].path] else fs[i].meta
    ensures var after := Delta(index, fs).index;
            fs[i].path in after && after[fs[i].path].size == fs[i].meta.size && after[fs[i].path].mtime == fs[i].meta.mtime
    decreases |fs|
  {
    NoRepeatsTail(fs);
    var index1 := if Unchanged(index, fs[0]) then index else index[fs[0].path := fs[0].meta];
    if i == 0 {
      DeltaIsChanged(index1, fs[1..]);
      ChangedIsPart(index1, fs[1..], fs[0].path);
      ReindexElsewhere(index1, Changed(index1, fs[1..]), fs[0].path);
    } else {
      IndexAfter(index1, fs[1..], i - 1);
      assert fs[1..][i - 1] == fs[i];
    }
  }

  /** What the full scan records. */
  lemma {:induction false} ReindexRecords(index: Index, fs: seq<Found>, i: nat)
    requires NoRepeats(fs) && i < |fs|
    ensures fs[i].path in Reindex(index, fs) && Reindex(index, fs)[fs[i].path] == fs[i].meta
    decreases |fs|
  {
    NoRepeatsTail(fs);
    var index1 := index[fs[0].path := fs[0].meta];
    if i == 0 {
      ReindexElsewhere(index1, fs[1..], fs[0].path);
    } else {
      ReindexRecords(index1, fs[1..], i - 1);
      assert fs[1..][i - 1] == fs[i];
    }
  }

  /** The old index overlaid with the delta is the full manifest, on all files that exist, exactly when equal
      size and time mean equal content. */
  lemma DeltaRefinesFullIff(index: Index, fs: seq<Found>)
    requires NoRepeats(fs)
    ensures (forall i :: 0 <= i < |fs| ==>
               fs[i].path in Delta(index, fs).index && Delta(index, fs).index[fs[i].path] == fs[i].meta)
            <==> FaithfulStamps(index, fs)
  {
    forall i | 0 <= i < |fs|
      ensures var after := Delta(index, fs).index;
              fs[i].path in after && after[fs[i].path] == if Unchanged(index, fs[i]) then index[fs[i].path] else fs[i].meta
    {
      IndexAfter(index, fs, i);
    }
  }

  // ---------------------------------------------------------------- a one-way receiver

  /** Content digests by path, after every entry of a manifest has been taken over. */
  function Apply(recv: map<string, string>, fs: seq<Found>): map<string, string>
    decreases |fs|
  {
    if fs == [] then recv else Apply(recv[fs[0].path := fs[0].meta.hash], fs[1..])
  }

  predicate AgreesWith(recv: map<string, string>, index: Index) {
    forall p :: p in index ==> p in recv && recv[p] == index[p].hash
  }

  lemma {:induction false} ApplyElsewhere(recv: map<string, string>, fs: seq<Found>, p: string, h: string)
    requires forall i :: 0 <= i < |fs| ==> fs[i].path != p
    ensures p in Apply(recv, fs) <==> p in recv
    ensures p in recv ==> Apply(recv, fs)[p] == recv[p]
    ensures Apply(recv[p := h], fs) == Apply(recv, fs)[p := h]
    decreases |fs|
  {
    if fs != [] {
      assert recv[p := h][fs[0].path := fs[0].meta.hash] == recv[fs[0].path := fs[0].meta.hash][p := h];
      ApplyElsewhere(recv[fs[0].path := fs[0].meta.hash], fs[1..], p, h);
    }
  }

  lemma {:induction false} DeltaIsEnough(recv: map<string, string>, index: Index, fs: seq<Found>)
    requires NoRepeats(fs) && FaithfulStamps(index, fs)
    requires forall i :: 0 <= i < |fs| && fs[i].path in index ==> fs[i].path in recv && recv[fs[i].path] == index[fs[i].path].hash
    ensures Apply(recv, Changed(index, fs)) == Apply(recv, fs)
    decreases |fs|
  {
    if fs != [] {
      NoRepeatsTail(fs);
      var p, h := fs[0].path, fs[0].meta.hash;
      assert forall i :: 0 <= i < |fs| - 1 ==> fs[1..][i] == fs[i + 1];
      if Unchanged(index, fs[0]) {
        assert recv[p := h] == recv;
        assert Changed(index, fs) == Changed(index, fs[1..]);
        DeltaIsEnough(recv, index, fs[1..]);
      } else {
        assert Changed(index, fs)[1..] == Changed(index, fs[1..]);
        DeltaIsEnough(recv[p := h], index, fs[1..]);
      }
    }
  }

  lemma {:induction false} StaleStaysStale(recv: map<string, string>, index: Index, fs: seq<Found>, i: nat)
    requires NoRepeats(fs) && i < |fs|
    ensures fs[i].path in Apply(recv, fs) && Apply(recv, fs)[fs[i].path] == fs[i].meta.hash
    ensures Unchanged(index, fs[i]) && fs[i].path in recv ==>
              fs[i].path in Apply(recv, Changed(index, fs)) && Apply(recv, Changed(index, fs))[fs[i].path] == recv[fs[i].path]
    decreases |fs|
  {
    NoRepeatsTail(fs);
    var recv1 := recv[fs[0].path := fs[0].meta.hash];
    if i == 0 {
      ApplyElsewhere(recv1, fs[1..], fs[0].path, "");
      ChangedIsPart(index, fs[1..], fs[0].path);
      ApplyElsewhere(recv, Changed(index, fs[1..]), fs[0].path, "");
      assert Unchanged(index, fs[0]) ==> Changed(index, fs) == Changed(index, fs[1..]);
    } else {
      assert fs[1..][i - 1] == fs[i];
      StaleStaysStale(recv1, index, fs[1..], i - 1);
      StaleStaysStale(recv, index, fs[1..], i - 1);
      assert Changed(index, fs) == (if Unchanged(index, fs[0]) then [] else [fs[0]]) + Changed(index, fs[1..]);
      assert !Unchanged(index, fs[0]) ==> Changed(index, fs)[1..] == Changed(index, fs[1..]);
      assert Unchanged(index, fs[0]) ==> Changed(index, fs) == Changed(index, fs[1..]);
    }
  }

  /** A scan records what it lists whether or not it arrives: scanned again, the same tree gives nothing, so a
      change that was announced and lost is not announced a second time. */
  lemma SecondScanIsSilent(index: Index, fs: seq<Found>)
    requires NoRepeats(fs)
    ensures Delta(Delta(index, fs).index, fs) == Scan([], Delta(index, fs).index)
  {
    var after := Delta(index, fs).index;
    forall i | 0 <= i < |fs|
      ensures Unchanged(after, fs[i])
    {
      IndexAfter(index, fs, i);
    }
    AllUnchanged(after, fs);
  }

  lemma {:induction false} AllUnchanged(index: Index, fs: seq<Found>)
    requires forall i :: 0 <= i < |fs| ==> Unchanged(index, fs[i])
    ensures Delta(index, fs) == Scan([], index)
    decreases |fs|
  {
    if fs != [] {
      AllUnchanged(index, fs[1..]);
    }
  }
}
