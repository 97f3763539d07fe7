/** The incremental push seen from the receiver: what the engine does with a one-way manifest that lists only the
    changed files. */
module DeltaPush {
  import opened Reconcile
  import opened Walk
  import opened CatchUp

  /** The digests of a replica's files. */
  function Digests(r: Rules, files: Replica): map<string, string> {
    map p | p in files :: r.hash(files[p].content)
  }

  function EntriesOf(fs: seq<Found>): (es: seq<Entry>)
    ensures |es| == |fs|
  {
    seq(|fs|, i requires 0 <= i < |fs| => Entry(fs[i].path, fs[i].meta.hash, fs[i].meta.mtime))
  }

  /** Files of the sender, each once, with their digests. */
  predicate Lists(r: Rules, a: Replica, fs: seq<Found>) {
    && NoRepeats(fs)
    && forall i :: 0 <= i < |fs| ==>
         fs[i].path in a && !r.hidden(fs[i].path) && fs[i].meta.hash == r.hash(a[fs[i].path].content)
  }

  predicate Differs(r: Rules, b: Replica, f: Found) {
    f.path in b ==> r.hash(b[f.path].content) != f.meta.hash
  }

  /** One way nothing is renamed, and what is missing or different is asked for. */
  lemma {:induction false} OneWayDecides(r: Rules, dir: Direction, b: Replica, fs: seq<Found>, stamp: string)
    requires !dir.Bidirectional? && forall i :: 0 <= i < |fs| ==> !r.hidden(fs[i].path)
    ensures var plan := Decide(r, dir, b, EntriesOf(fs), stamp);
            && plan.files == b
            && forall p :: p in plan.needed <==> exists i :: 0 <= i < |fs| && fs[i].path == p && Differs(r, b, fs[i])
  {
    if fs != [] {
      var n := |fs| - 1;
      OneWayDecides(r, dir, b, fs[..n], stamp);
      assert EntriesOf(fs)[..n] == EntriesOf(fs[..n]);
      var plan, before := Decide(r, dir, b, EntriesOf(fs), stamp), Decide(r, dir, b, EntriesOf(fs[..n]), stamp);
      JudgeIff(r, dir, b, EntriesOf(fs)[n]);
      assert plan.needed == before.needed + if Differs(r, b, fs[n]) then [fs[n].path] else [];
      forall p
        ensures p in plan.needed <==> exists i :: 0 <= i < |fs| && fs[i].path == p && Differs(r, b, fs[i])
      {
        if i :| 0 <= i < n && fs[..n][i].path == p && Differs(r, b, fs[..n][i]) {
          assert fs[i] == fs[..n][i];
        }
        if i :| 0 <= i < |fs| && fs[i].path == p && Differs(r, b, fs[i]) {
          assert i < n ==> fs[..n][i] == fs[i];
        }
      }
    }
  }

  /** A one-way exchange of any such list leaves the receiver with exactly the listed digests on top of its own. */
  lemma ExchangeApplies(r: Rules, dir: Direction, a: Replica, b: Replica, fs: seq<Found>, stamp: string, now: string -> int)
    requires !dir.Bidirectional? && Lists(r, a, fs)
    ensures Digests(r, Exchange(r, dir, a, b, EntriesOf(fs), stamp, now)) == Apply(Digests(r, b), fs)
  {
    OneWayDecides(r, dir, b, fs, stamp);
    var x, y := Digests(r, Exchange(r, dir, a, b, EntriesOf(fs), stamp, now)), Apply(Digests(r, b), fs);
    forall p
      ensures (p in x <==> p in y) && (p in x ==> x[p] == y[p])
    {
      if i :| 0 <= i < |fs| && fs[i].path == p {
        StaleStaysStale(Digests(r, b), map[], fs, i);
        assert forall j :: 0 <= j < |fs| && fs[j].path == p ==> j == i;
      } else {
        ApplyElsewhere(Digests(r, b), fs, p, "");
      }
    }
  }

  lemma {:induction false} ChangedFrom(index: Index, fs: seq<Found>)
    requires NoRepeats(fs)
    ensures NoRepeats(Changed(index, fs))
    ensures forall i :: 0 <= i < |Changed(index, fs)| ==> Changed(index, fs)[i] in fs
  {
    if fs != [] {
      NoRepeatsTail(fs);
      ChangedFrom(index, fs[1..]);
      ChangedIsPart(index, fs[1..], fs[0].path);
      assert forall f :: f in fs[1..] ==> f in fs;
    }
  }

  /** Every recorded digest is the digest of something. */
  ghost predicate Genuine(r: Rules, index: Index) {
    forall p :: p in index ==> IsDigest(r, index[p].hash)
  }

  ghost predicate IsDigest(r: Rules, h: string) {
    exists c :: r.hash(c) == h
  }

  ghost function Source(r: Rules, h: string): (c: Content)
    requires IsDigest(r, h)
    ensures r.hash(c) == h
  {
    var c :| r.hash(c) == h;
    c
  }

  /** Every one-way receiver that agreed with the old index ends up, after the incremental manifest, with the same
      contents as after the full one, exactly when equal size and time mean equal content. */
  lemma DeltaServesReceiversIff(r: Rules, dir: Direction, a: Replica, index: Index, fs: seq<Found>, stamp: string, now: string -> int)
    requires !dir.Bidirectional? && Lists(r, a, fs) && Genuine(r, index)
    ensures (forall b :: AgreesWith(Digests(r, b), index) ==>
               Digests(r, Exchange(r, dir, a, b, EntriesOf(Delta(index, fs).changed), stamp, now)) ==
               Digests(r, Exchange(r, dir, a, b, EntriesOf(fs), stamp, now)))
            <==> FaithfulStamps(index, fs)
  {
    DeltaIsChanged(index, fs);
    ChangedFrom(index, fs);
    var delta := Delta(index, fs).changed;
    assert Lists(r, a, delta);
    if FaithfulStamps(index, fs) {
      forall b | AgreesWith(Digests(r, b), index)
        ensures Digests(r, Exchange(r, dir, a, b, EntriesOf(delta), stamp, now)) ==
                Digests(r, Exchange(r, dir, a, b, EntriesOf(fs), stamp, now))
      {
        ExchangeApplies(r, dir, a, b, delta, stamp, now);
        ExchangeApplies(r, dir, a, b, fs, stamp, now);
        DeltaIsEnough(Digests(r, b), index, fs);
      }
    } else {
      var i :| 0 <= i < |fs| && Unchanged(index, fs[i]) && index[fs[i].path].hash != fs[i].meta.hash;
      var b: Replica := map p | p in index :: File(Source(r, index[p].hash), 0);
      assert AgreesWith(Digests(r, b), index);
      ExchangeApplies(r, dir, a, b, delta, stamp, now);
      ExchangeApplies(r, dir, a, b, fs, stamp, now);
      StaleStaysStale(Digests(r, b), index, fs, i);
    }
  }
}
