/** The tree walk behind every manifest, which skips whole directories, against the plain filter of all files. */
module Walk {
  import opened Paths

  datatype Meta = Meta(hash: string, size: int, mtime: int)

  datatype Node =
    | Leaf(name: string, symlink: bool, meta: Meta)
    | Dir(name: string, children: seq<Node>)

  datatype Found = Found(path: string, meta: Meta)

  /** The ignore list and the test for temporary names. */
  datatype Skips = Skips(ignored: string -> bool, temp: string -> bool)

  /** The three tests that make the walk return `SkipDir`. */
  predicate Pruned(k: Skips, rel: string) {
    k.ignored(rel) || k.ignored(if rel == "" then "" else rel + "/") || k.ignored(rel + "/**")
  }

  predicate Kept(k: Skips, rel: string) {
    !k.temp(rel) && !k.ignored(rel)
  }

  /** The walk below the directory reached through the names `at`; directory entries come in the order of
      `children`. */
  function Walk(k: Skips, at: seq<string>, node: Node): seq<Found>
    decreases node
  {
    match node
    case Leaf(_, symlink, meta) => if symlink || !Kept(k, Join(at)) then [] else [Found(Join(at), meta)]
    case Dir(_, children) => if Pruned(k, Join(at)) then [] else WalkAll(k, at, children)
  }

  function WalkAll(k: Skips, at: seq<string>, nodes: seq<Node>): seq<Found>
    decreases nodes
  {
    if nodes == [] then []
    else Walk(k, at + [nodes[0].name], nodes[0]) + WalkAll(k, at, nodes[1..])
  }

  /** Every regular file, taken or left by its own path alone. */
  function Flat(k: Skips, at: seq<string>, node: Node): seq<Found>
    decreases node
  {
    match node
    case Leaf(_, symlink, meta) => if symlink || !Kept(k, Join(at)) then [] else [Found(Join(at), meta)]
    case Dir(_, children) => FlatAll(k, at, children)
  }

  function FlatAll(k: Skips, at: seq<string>, nodes: seq<Node>): seq<Found>
    decreases nodes
  {
    if nodes == [] then []
    else Flat(k, at + [nodes[0].name], nodes[0]) + FlatAll(k, at, nodes[1..])
  }

  predicate CleanName(n: string) {
    n != "" && '/' !in n
  }

  predicate Clean(at: seq<string>) {
    forall i :: 0 <= i < |at| ==> CleanName(at[i])
  }

  /** Names below the root are proper and siblings have different ones. */
  predicate CleanTree(node: Node) {
    node.Dir? ==>
      && (forall i :: 0 <= i < |node.children| ==> CleanName(node.children[i].name) && CleanTree(node.children[i]))
      && (forall i, j :: 0 <= i < j < |node.children| ==> node.children[i].name != node.children[j].name)
  }

  predicate CleanNodes(nodes: seq<Node>) {
    && (forall i :: 0 <= i < |nodes| ==> CleanName(nodes[i].name) && CleanTree(nodes[i]))
    && (forall i, j :: 0 <= i < j < |nodes| ==> nodes[i].name != nodes[j].name)
  }

  // ---------------------------------------------------------------- what is listed

  /** The names lead from `node` to a regular file. */
  ghost predicate LeadsTo(node: Node, names: seq<string>, meta: Meta)
    decreases |names|
  {
    if names == [] then node.Leaf? && !node.symlink && node.meta == meta
    else
      node.Dir? && exists i :: 0 <= i < |node.children| && Takes(node, i, names, meta)
  }

  ghost predicate Takes(node: Node, i: nat, names: seq<string>, meta: Meta)
    requires node.Dir? && i < |node.children| && names != []
    decreases |names|, 0
  {
    node.children[i].name == names[0] && LeadsTo(node.children[i], names[1..], meta)
  }

  /** A regular file whose own path is neither temporary nor ignored, by the leading `at` and the names below. */
  ghost predicate Wanted(k: Skips, at: seq<string>, node: Node, names: seq<string>, f: Found) {
    f.path == Join(at + names) && LeadsTo(node, names, f.meta) && !k.temp(f.path) && !k.ignored(f.path)
  }

  /** A directory that is ignored in none of the three forms that are tried. */
  predicate Open(k: Skips, d: string) {
    !k.ignored(d) && !k.ignored(if d == "" then "" else d + "/") && !k.ignored(d + "/**")
  }

  predicate WayOpen(k: Skips, at: seq<string>, from: nat) {
    forall n :: from <= n < |at| ==> Open(k, Join(at[..n]))
  }

  lemma {:induction false} InWalkAll(k: Skips, at: seq<string>, nodes: seq<Node>, f: Found)
    ensures f in WalkAll(k, at, nodes) <==>
              exists i :: 0 <= i < |nodes| && f in Walk(k, at + [nodes[i].name], nodes[i])
    decreases |nodes|
  {
    if nodes != [] {
      InWalkAll(k, at, nodes[1..], f);
      assert forall i :: 1 <= i < |nodes| ==> nodes[i] == nodes[1..][i - 1];
      if i :| 0 <= i < |nodes| && f in Walk(k, at + [nodes[i].name], nodes[i]) {
        assert i > 0 ==> f in Walk(k, at + [nodes[1..][i - 1].name], nodes[1..][i - 1]);
      }
    }
  }

  lemma {:induction false} InFlatAll(k: Skips, at: seq<string>, nodes: seq<Node>, f: Found)
    ensures f in FlatAll(k, at, nodes) <==>
              exists i :: 0 <= i < |nodes| && f in Flat(k, at + [nodes[i].name], nodes[i])
    decreases |nodes|
  {
    if nodes != [] {
      InFlatAll(k, at, nodes[1..], f);
      assert forall i :: 1 <= i < |nodes| ==> nodes[i] == nodes[1..][i - 1];
      if i :| 0 <= i < |nodes| && f in Flat(k, at + [nodes[i].name], nodes[i]) {
        assert i > 0 ==> f in Flat(k, at + [nodes[1..][i - 1].name], nodes[1..][i - 1]);
      }
    }
  }

  lemma StepDown(k: Skips, at: seq<string>, node: Node, i: nat, names: seq<string>, f: Found)
    requires node.Dir? && i < |node.children| && names != [] && names[0] == node.children[i].name
    ensures at + names == at + [node.children[i].name] + names[1..]
    ensures Wanted(k, at + [node.children[i].name], node.children[i], names[1..], f) ==> Wanted(k, at, node, names, f)
    ensures WayOpen(k, at + names, |at|) <==> Open(k, Join(at)) && WayOpen(k, at + names, |at| + 1)
  {
    assert names == [names[0]] + names[1..];
    assert LeadsTo(node.children[i], names[1..], f.meta) ==> Takes(node, i, names, f.meta);
    assert (at + names)[..|at|] == at;
  }

  lemma TakesOne(node: Node, names: seq<string>, meta: Meta) returns (i: nat)
    requires names != [] && LeadsTo(node, names, meta)
    ensures node.Dir? && i < |node.children| && Takes(node, i, names, meta)
  {
    i :| 0 <= i < |node.children| && Takes(node, i, names, meta);
  }

  lemma {:induction false} ListedThenWanted(k: Skips, at: seq<string>, node: Node, f: Found) returns (names: seq<string>)
    requires f in Walk(k, at, node)
    ensures Wanted(k, at, node, names, f) && WayOpen(k, at + names, |at|)
    decreases node
  {
    if node.Leaf? {
      names := [];
      assert at + [] == at;
    } else {
      InWalkAll(k, at, node.children, f);
      var i :| 0 <= i < |node.children| && f in Walk(k, at + [node.children[i].name], node.children[i]);
      var name := node.children[i].name;
      var rest := ListedThenWanted(k, at + [name], node.children[i], f);
      names := [name] + rest;
      StepDown(k, at, node, i, names, f);
    }
  }

  lemma {:induction false} WantedThenListed(k: Skips, at: seq<string>, node: Node, names: seq<string>, f: Found)
    requires Wanted(k, at, node, names, f) && WayOpen(k, at + names, |at|)
    ensures f in Walk(k, at, node)
    decreases |names|
  {
    if names == [] {
      assert at + [] == at;
    } else {
      var i := TakesOne(node, names, f.meta);
      var name := node.children[i].name;
      StepDown(k, at, node, i, names, f);
      WantedThenListed(k, at + [name], node.children[i], names[1..], f);
      InWalkAll(k, at, node.children, f);
    }
  }

  /** The way to a listed file. */
  ghost predicate ListedBy(k: Skips, root: Node, at: seq<string>, f: Found) {
    && f.path == Join(at) && LeadsTo(root, at, f.meta) && !k.temp(f.path) && !k.ignored(f.path)
    && forall n :: 0 <= n < |at| ==>
         var d := Join(at[..n]);
         !k.ignored(d) && !k.ignored(if d == "" then "" else d + "/") && !k.ignored(d + "/**")
  }

  lemma ListedByIs(k: Skips, root: Node, at: seq<string>, f: Found)
    ensures ListedBy(k, root, at, f) <==> Wanted(k, [], root, at, f) && WayOpen(k, at, 0)
  {
    assert [] + at == at;
    forall n | 0 <= n < |at|
      ensures var d := Join(at[..n]);
              Open(k, d) <==> !k.ignored(d) && !k.ignored(if d == "" then "" else d + "/") && !k.ignored(d + "/**")
    {
    }
  }

  /** Exactly what a manifest lists, in terms of the tree: the regular files that are reached through directories none
      of which is ignored as it is, with a slash, or with a slash and two stars behind it, and that are neither
      temporary nor ignored themselves. */
  lemma ListedIff(k: Skips, root: Node, f: Found)
    ensures f in Walk(k, [], root) <==> exists at :: ListedBy(k, root, at, f)
  {
    if f in Walk(k, [], root) {
      var at := ListedThenWanted(k, [], root, f);
      assert [] + at == at;
      ListedByIs(k, root, at, f);
    }
    if at :| ListedBy(k, root, at, f) {
      ListedByIs(k, root, at, f);
      assert [] + at == at;
      WantedThenListed(k, [], root, at, f);
    }
  }

  // ---------------------------------------------------------------- in what order

  /** In the tree `a` comes before `b`: at the first directory where the ways part, `a` takes the earlier entry. */
  ghost predicate Before(nodes: seq<Node>, a: seq<string>, b: seq<string>)
    decreases |a|
  {
    a != [] && b != [] && exists i, j :: 0 <= i <= j < |nodes| && PartsAt(nodes, i, j, a, b)
  }

  ghost predicate PartsAt(nodes: seq<Node>, i: nat, j: nat, a: seq<string>, b: seq<string>)
    requires i <= j < |nodes| && a != [] && b != []
    decreases |a|, 0
  {
    && nodes[i].name == a[0] && nodes[j].name == b[0]
    && (i == j ==> nodes[i].Dir? && Before(nodes[i].children, a[1..], b[1..]))
  }

  lemma BeforeTail(nodes: seq<Node>, a: seq<string>, b: seq<string>)
    requires nodes != [] && Before(nodes[1..], a, b)
    ensures Before(nodes, a, b)
  {
    var i, j :| 0 <= i <= j < |nodes| - 1 && PartsAt(nodes[1..], i, j, a, b);
    assert nodes[i + 1] == nodes[1..][i] && nodes[j + 1] == nodes[1..][j];
    assert PartsAt(nodes, i + 1, j + 1, a, b);
  }

  /** The names by which a file is reached from here. */
  ghost predicate Names(at: seq<string>, f: Found, names: seq<string>) {
    f.path == Join(at + names)
  }

  ghost predicate InOrder(nodes: seq<Node>, at: seq<string>, f: Found, g: Found) {
    exists a, b :: Names(at, f, a) && Names(at, g, b) && Before(nodes, a, b)
  }

  lemma FromChild(k: Skips, at: seq<string>, nodes: seq<Node>, i: nat, f: Found) returns (names: seq<string>)
    requires i < |nodes| && f in Walk(k, at + [nodes[i].name], nodes[i])
    ensures names != [] && names[0] == nodes[i].name && Names(at, f, names)
  {
    var rest := ListedThenWanted(k, at + [nodes[i].name], nodes[i], f);
    names := [nodes[i].name] + rest;
    assert at + names == at + [nodes[i].name] + rest;
  }

  lemma AcrossChildren(k: Skips, at: seq<string>, nodes: seq<Node>, f: Found, g: Found)
    requires nodes != [] && f in Walk(k, at + [nodes[0].name], nodes[0]) && g in WalkAll(k, at, nodes[1..])
    ensures InOrder(nodes, at, f, g)
  {
    InWalkAll(k, at, nodes[1..], g);
    var j :| 0 <= j < |nodes| - 1 && g in Walk(k, at + [nodes[1..][j].name], nodes[1..][j]);
    assert nodes[1..][j] == nodes[j + 1];
    var a := FromChild(k, at, nodes, 0, f);
    var b := FromChild(k, at, nodes, j + 1, g);
    assert PartsAt(nodes, 0, j + 1, a, b);
    assert Before(nodes, a, b);
  }

  lemma WithinChild(at: seq<string>, nodes: seq<Node>, f: Found, g: Found)
    requires nodes != [] && nodes[0].Dir? && InOrder(nodes[0].children, at + [nodes[0].name], f, g)
    ensures InOrder(nodes, at, f, g)
  {
    var here := at + [nodes[0].name];
    var a, b :| Names(here, f, a) && Names(here, g, b) && Before(nodes[0].children, a, b);
    var a', b' := [nodes[0].name] + a, [nodes[0].name] + b;
    assert at + a' == here + a && at + b' == here + b;
    assert a'[1..] == a && b'[1..] == b;
    assert PartsAt(nodes, 0, 0, a', b');
    assert Before(nodes, a', b');
  }

  lemma WithinRest(at: seq<string>, nodes: seq<Node>, f: Found, g: Found)
    requires nodes != [] && InOrder(nodes[1..], at, f, g)
    ensures InOrder(nodes, at, f, g)
  {
    var a, b :| Names(at, f, a) && Names(at, g, b) && Before(nodes[1..], a, b);
    BeforeTail(nodes, a, b);
  }

  /** The files are listed in the order of the tree: entry by entry, each directory as a whole. */
  lemma {:induction false} WalkAllInOrder(k: Skips, at: seq<string>, nodes: seq<Node>, m: nat, n: nat)
    requires m < n < |WalkAll(k, at, nodes)|
    ensures InOrder(nodes, at, WalkAll(k, at, nodes)[m], WalkAll(k, at, nodes)[n])
    decreases nodes
  {
    var here := at + [nodes[0].name];
    var head, rest := Walk(k, here, nodes[0]), WalkAll(k, at, nodes[1..]);
    assert WalkAll(k, at, nodes) == head + rest;
    if n < |head| {
      WalkAllInOrder(k, here, nodes[0].children, m, n);
      WithinChild(at, nodes, head[m], head[n]);
    } else if m < |head| {
      AcrossChildren(k, at, nodes, head[m], rest[n - |head|]);
    } else {
      WalkAllInOrder(k, at, nodes[1..], m - |head|, n - |head|);
      WithinRest(at, nodes, rest[m - |head|], rest[n - |head|]);
    }
  }

  lemma {:induction false} FlatThenWanted(k: Skips, at: seq<string>, node: Node, f: Found) returns (names: seq<string>)
    requires f in Flat(k, at, node)
    ensures Wanted(k, at, node, names, f)
    decreases node
  {
    if node.Leaf? {
      names := [];
      assert at + [] == at;
    } else {
      InFlatAll(k, at, node.children, f);
      var i :| 0 <= i < |node.children| && f in Flat(k, at + [node.children[i].name], node.children[i]);
      var rest := FlatThenWanted(k, at + [node.children[i].name], node.children[i], f);
      names := [node.children[i].name] + rest;
      StepDown(k, at, node, i, names, f);
    }
  }

  lemma {:induction false} WantedThenFlat(k: Skips, at: seq<string>, node: Node, names: seq<string>, f: Found)
    requires Wanted(k, at, node, names, f)
    ensures f in Flat(k, at, node)
    decreases |names|
  {
    if names == [] {
      assert at + [] == at;
    } else {
      var i := TakesOne(node, names, f.meta);
      StepDown(k, at, node, i, names, f);
      WantedThenFlat(k, at + [node.children[i].name], node.children[i], names[1..], f);
      InFlatAll(k, at, node.children, f);
    }
  }

  ghost predicate FilteredBy(k: Skips, root: Node, at: seq<string>, f: Found) {
    f.path == Join(at) && LeadsTo(root, at, f.meta) && !k.temp(f.path) && !k.ignored(f.path)
  }

  /** Exactly what the plain filter lists. */
  lemma FlatIff(k: Skips, root: Node, f: Found)
    ensures f in Flat(k, [], root) <==> exists at :: FilteredBy(k, root, at, f)
  {
    if f in Flat(k, [], root) {
      var at := FlatThenWanted(k, [], root, f);
      assert [] + at == at;
      assert FilteredBy(k, root, at, f);
    }
    if at :| FilteredBy(k, root, at, f) {
      assert [] + at == at;
      WantedThenFlat(k, [], root, at, f);
    }
  }

  // ---------------------------------------------------------------- when skipping is harmless

  /** Nothing below a directory that is skipped would have been kept. */
  ghost predicate Closed(k: Skips) {
    forall d: seq<string>, x: seq<string> :: Clean(d) && Clean(x) && x != [] && Pruned(k, Join(d)) ==> !Kept(k, Join(d + x))
  }

  lemma {:induction false} NothingBelow(k: Skips, d: seq<string>, x: seq<string>, node: Node)
    requires Closed(k) && Pruned(k, Join(d)) && Clean(d) && Clean(x) && x != [] && CleanTree(node)
    ensures Flat(k, d + x, node) == []
    decreases node
  {
    if node.Dir? {
      NothingBelowAll(k, d, x, node.children);
    }
  }

  lemma {:induction false} NothingBelowAll(k: Skips, d: seq<string>, x: seq<string>, nodes: seq<Node>)
    requires Closed(k) && Pruned(k, Join(d)) && Clean(d) && Clean(x) && CleanNodes(nodes)
    ensures FlatAll(k, d + x, nodes) == []
    decreases nodes
  {
    if nodes != [] {
      assert d + x + [nodes[0].name] == d + (x + [nodes[0].name]);
      NothingBelow(k, d, x + [nodes[0].name], nodes[0]);
      NothingBelowAll(k, d, x, nodes[1..]);
    }
  }

  lemma {:induction false} WalkIsFlat(k: Skips, at: seq<string>, node: Node)
    requires Closed(k) && Clean(at) && CleanTree(node)
    ensures Walk(k, at, node) == Flat(k, at, node)
    decreases node
  {
    if node.Dir? {
      if Pruned(k, Join(at)) {
        NothingBelowAll(k, at, [], node.children);
        assert at + [] == at;
      } else {
        WalkAllIsFlat(k, at, node.children);
      }
    }
  }

  lemma {:induction false} WalkAllIsFlat(k: Skips, at: seq<string>, nodes: seq<Node>)
    requires Closed(k) && Clean(at) && CleanNodes(nodes)
    ensures WalkAll(k, at, nodes) == FlatAll(k, at, nodes)
    decreases nodes
  {
    if nodes != [] {
      WalkIsFlat(k, at + [nodes[0].name], nodes[0]);
      WalkAllIsFlat(k, at, nodes[1..]);
    }
  }

  /** A tree that is one file under a chain of directories. */
  function Chain(x: seq<string>): Node
    requires x != []
  {
    if |x| == 1 then Leaf(x[0], false, Meta("", 0, 0)) else Dir(x[0], [Chain(x[1..])])
  }

  lemma {:induction false} ChainFlat(k: Skips, at: seq<string>, x: seq<string>)
    requires x != [] && Kept(k, Join(at + x))
    ensures Flat(k, at + [x[0]], Chain(x)) == [Found(Join(at + x), Meta("", 0, 0))]
    decreases |x|
  {
    if |x| == 1 {
      assert at + [x[0]] == at + x;
    } else {
      assert at + [x[0]] + x[1..] == at + x;
      ChainFlat(k, at + [x[0]], x[1..]);
      assert FlatAll(k, at + [x[0]], [Chain(x[1..])][1..]) == [];
    }
  }

  lemma {:induction false} ChainPruned(k: Skips, at: seq<string>, d: seq<string>, x: seq<string>)
    requires d != [] && x != [] && Pruned(k, Join(at + d))
    ensures Walk(k, at + [d[0]], Chain(d + x)) == []
    decreases |d|
  {
    assert (d + x)[1..] == d[1..] + x;
    if |d| == 1 {
      assert at + d == at + [d[0]];
    } else {
      assert at + [d[0]] + d[1..] == at + d;
      ChainPruned(k, at + [d[0]], d[1..], x);
      assert (d + x)[1..][0] == d[1..][0];
      assert WalkAll(k, at + [d[0]], [Chain(d[1..] + x)][1..]) == [];
    }
  }

  lemma {:induction false} ChainClean(x: seq<string>)
    requires x != [] && Clean(x)
    ensures CleanTree(Chain(x)) && Chain(x).name == x[0]
  {
    if |x| > 1 {
      ChainClean(x[1..]);
    }
  }

  lemma LosesAFile(k: Skips, d: seq<string>, x: seq<string>) returns (tree: Node)
    requires Clean(d) && Clean(x) && x != [] && Pruned(k, Join(d)) && Kept(k, Join(d + x))
    ensures tree.Dir? && CleanTree(tree) && Walk(k, [], tree) == [] && Flat(k, [], tree) != []
  {
    var all := d + x;
    tree := Dir("", [Chain(all)]);
    ChainClean(all);
    assert [] + all == all && tree.children[1..] == [];
    ChainFlat(k, [], all);
    assert Flat(k, [], tree) == Flat(k, [] + [all[0]], Chain(all)) + FlatAll(k, [], []);
    if d != [] {
      assert [] + d == d && all[0] == d[0];
      ChainPruned(k, [], d, x);
      assert WalkAll(k, [], tree.children) == Walk(k, [] + [all[0]], Chain(all)) + WalkAll(k, [], []);
    }
  }

  /** The walk that skips directories lists the same files as the plain filter, in every tree, exactly when no
      path that would be kept lies below a skipped directory. */
  lemma PrunedWalkIff(k: Skips)
    ensures (forall tree: Node :: tree.Dir? && CleanTree(tree) ==> Walk(k, [], tree) == Flat(k, [], tree)) <==> Closed(k)
  {
    if Closed(k) {
      forall tree: Node | tree.Dir? && CleanTree(tree)
        ensures Walk(k, [], tree) == Flat(k, [], tree)
      {
        WalkIsFlat(k, [], tree);
      }
    } else {
      var d: seq<string>, x: seq<string> :| Clean(d) && Clean(x) && x != [] && Pruned(k, Join(d)) && Kept(k, Join(d + x));
      var tree := LosesAFile(k, d, x);
    }
  }

  // ---------------------------------------------------------------- once each, and folder by folder

  lemma SplitClean(at: seq<string>)
    requires Clean(at) && at != []
    ensures Split(Join(at)) == at
  {
    SplitOfJoin(at);
  }

  /** Everything found below `at` has `at` as its leading components. */
  lemma {:induction false} WalkStaysBelow(k: Skips, at: seq<string>, node: Node)
    requires Clean(at) && CleanTree(node) && (at != [] || node.Dir?)
    ensures forall f :: f in Walk(k, at, node) ==> at <= Split(f.path)
    decreases node
  {
    if node.Dir? {
      WalkAllStaysBelow(k, at, node.children);
    } else {
      SplitClean(at);
    }
  }

  lemma {:induction false} WalkAllStaysBelow(k: Skips, at: seq<string>, nodes: seq<Node>)
    requires Clean(at) && CleanNodes(nodes)
    ensures forall f :: f in WalkAll(k, at, nodes) ==>
              at <= Split(f.path) && exists i :: 0 <= i < |nodes| && at + [nodes[i].name] <= Split(f.path)
    decreases nodes
  {
    if nodes != [] {
      var here := at + [nodes[0].name];
      WalkStaysBelow(k, here, nodes[0]);
      WalkAllStaysBelow(k, at, nodes[1..]);
      forall f | f in WalkAll(k, at, nodes)
        ensures at <= Split(f.path) && exists i :: 0 <= i < |nodes| && at + [nodes[i].name] <= Split(f.path)
      {
        if f in Walk(k, here, nodes[0]) {
          assert at <= here <= Split(f.path);
        } else {
          var i :| 0 <= i < |nodes| - 1 && at + [nodes[1..][i].name] <= Split(f.path);
          assert nodes[i + 1].name == nodes[1..][i].name;
        }
      }
    }
  }

  predicate NoRepeats(fs: seq<Found>) {
    forall i, j :: 0 <= i < j < |fs| ==> fs[i].path != fs[j].path
  }

  /** No file is listed twice. */
  lemma {:induction false} WalkListsOnce(k: Skips, at: seq<string>, node: Node)
    requires Clean(at) && CleanTree(node) && (at != [] || node.Dir?)
    ensures NoRepeats(Walk(k, at, node))
    decreases node
  {
    if node.Dir? {
      WalkAllListsOnce(k, at, node.children);
    }
  }

  lemma {:induction false} WalkAllListsOnce(k: Skips, at: seq<string>, nodes: seq<Node>)
    requires Clean(at) && CleanNodes(nodes)
    ensures NoRepeats(WalkAll(k, at, nodes))
    decreases nodes
  {
    if nodes != [] {
      var here := at + [nodes[0].name];
      var a, b := Walk(k, here, nodes[0]), WalkAll(k, at, nodes[1..]);
      WalkListsOnce(k, here, nodes[0]);
      WalkAllListsOnce(k, at, nodes[1..]);
      WalkStaysBelow(k, here, nodes[0]);
      WalkAllStaysBelow(k, at, nodes[1..]);
      forall i, j | 0 <= i < |a| && 0 <= j < |b|
        ensures a[i].path != b[j].path
      {
        assert a[i] in a && b[j] in b;
        var m :| 0 <= m < |nodes| - 1 && at + [nodes[1..][m].name] <= Split(b[j].path);
        assert Split(a[i].path)[|at|] == nodes[0].name;
        assert Split(b[j].path)[|at|] == nodes[m + 1].name;
      }
    }
  }

  function Below(folder: string, fs: seq<Found>): seq<Found> {
    if fs == [] then []
    else (if [folder] <= Split(fs[0].path) then [fs[0]] else []) + Below(folder, fs[1..])
  }

  lemma {:induction false} BelowAppend(folder: string, a: seq<Found>, b: seq<Found>)
    ensures Below(folder, a + b) == Below(folder, a) + Below(folder, b)
  {
    if a == [] {
      assert a + b == b;
    } else {
      assert (a + b)[1..] == a[1..] + b;
      BelowAppend(folder, a[1..], b);
    }
  }

  lemma {:induction false} BelowAll(folder: string, other: string, fs: seq<Found>)
    requires forall f :: f in fs ==> [other] <= Split(f.path)
    ensures Below(folder, fs) == if other == folder then fs else []
  {
    if fs != [] {
      assert fs[0] in fs;
      BelowAll(folder, other, fs[1..]);
      assert Split(fs[0].path)[0] == other;
    }
  }

  lemma {:induction false} FolderAmong(k: Skips, nodes: seq<Node>, folder: string, i: nat)
    requires CleanNodes(nodes) && i <= |nodes|
    requires forall j :: 0 <= j < |nodes| ==> (nodes[j].name == folder <==> j == i)
    ensures Below(folder, WalkAll(k, [], nodes)) == if i < |nodes| then Walk(k, [folder], nodes[i]) else []
  {
    if nodes != [] {
      var name := nodes[0].name;
      var here, rest := Walk(k, [name], nodes[0]), WalkAll(k, [], nodes[1..]);
      WalkStaysBelow(k, [name], nodes[0]);
      BelowAll(folder, name, here);
      BelowAppend(folder, here, rest);
      assert [] + [name] == [name];
      FolderAmong(k, nodes[1..], folder, if i == 0 then |nodes| - 1 else i - 1);
    }
  }

  /** The manifest of one top-level folder is the full manifest restricted to it, under any pattern list that
      does not prune the root itself. */
  lemma FolderManifestIsRestriction(k: Skips, root: Node, i: nat)
    requires root.Dir? && CleanTree(root) && i < |root.children| && !Pruned(k, "")
    ensures Walk(k, [root.children[i].name], root.children[i]) == Below(root.children[i].name, Walk(k, [], root))
  {
    FolderAmong(k, root.children, root.children[i].name, i);
  }
}
