/** In which order the depth-first walk meets the specs (`arch/graph.py`): targets are followed in the
    order of their ids, and so are the roots. */
module CycleOrder {
  import opened CycleWalk
  import opened CycleWalkLaws
  import opened DependencyGraph
  import opened Ordering

  /** Met from the same spec, or both roots. */
  ghost predicate Siblings(tree: Tree, v: SpecId, w: SpecId) {
    && v in tree && w in tree && v != w
    && if tree[v].depth == 0 then tree[w].depth == 0 else tree[w].depth > 0 && tree[v].parent == tree[w].parent
  }

  /** The one with the smaller id is finished first. */
  ghost predicate OneAfterTheOther(le: IdOrder, s: Search, v: SpecId, w: SpecId) {
    Siblings(s.tree, v, w) && le(v, w) ==> v in s.rank && (w in s.rank ==> s.rank[v] < s.rank[w])
  }

  ghost predicate InOrder(le: IdOrder, s: Search) { forall v, w :: OneAfterTheOther(le, s, v, w) }

  /** Met from the last node of the path, or a root when there is none. */
  ghost predicate UnderTop(s: Search, v: SpecId) {
    && v in s.tree
    && if s.active == [] then s.tree[v].depth == 0
       else s.tree[v].depth > 0 && s.tree[v].parent == s.active[|s.active| - 1]
  }

  /** Everything met from there is finished, and has a smaller id than any of these. */
  ghost predicate MetBefore(le: IdOrder, s: Search, targets: seq<SpecId>) {
    forall v | UnderTop(s, v) :: v in s.rank && forall t | t in targets :: le(v, t) && v != t
  }

  /** What was met and finished stays so. */
  ghost predicate Grown(s: Search, r: Search) {
    && r.active == s.active
    && (forall v | v in s.tree :: v in r.tree && r.tree[v] == s.tree[v])
    && (forall v | v in s.rank :: v in r.rank && r.rank[v] == s.rank[v])
  }

  ghost predicate IsNew(s: Search, r: Search, v: SpecId) { v in r.tree && v !in s.tree }

  /** Whatever else was met since was met from something met since. */
  ghost predicate OnlyMeets(s: Search, r: Search, met: set<SpecId>) {
    forall v | IsNew(s, r, v) && v !in met :: r.tree[v].depth > 0 && r.tree[v].parent !in s.tree
  }

  /** What was met since was met from this node, or from something met since. */
  ghost predicate MeetsBelow(s: Search, r: Search, node: SpecId) {
    forall v | IsNew(s, r, v) :: r.tree[v].depth > 0 && (r.tree[v].parent == node || r.tree[v].parent !in s.tree)
  }

  lemma PushIsInOrder(le: IdOrder, g: Edges, s: Search, first: SpecId, node: SpecId)
    requires TotalOrder(le) && Sound(le, g, s, first) && MayStart(g, s, first, node)
    requires InOrder(le, s) && MetBefore(le, s, [node])
    ensures InOrder(le, Pushed(s, node)) && forall v :: !UnderTop(Pushed(s, node), v)
  {
    var p := Pushed(s, node);
    if s.active != [] { assert s.active[|s.active| - 1] in s.tree; }
    forall v, w ensures OneAfterTheOther(le, p, v, w) {
      assert OneAfterTheOther(le, s, v, w);
      assert Siblings(p.tree, v, w) && v == node ==> UnderTop(s, w);
      assert Siblings(p.tree, v, w) && w == node ==> UnderTop(s, v);
      assert node in [node];
    }
    forall v ensures !UnderTop(p, v) {
      if v in s.tree { assert Placed(g, s.tree, v); }
    }
  }

  lemma PopIsInOrder(le: IdOrder, s: Search, node: SpecId)
    requires InOrder(le, s) && s.active != [] && node !in s.rank && forall x | x in s.rank :: s.rank[x] < s.clock
    ensures InOrder(le, Popped(s, node))
  {
    var p := Popped(s, node);
    forall v, w ensures OneAfterTheOther(le, p, v, w) { assert OneAfterTheOther(le, s, v, w); }
  }

  lemma SkipIsInOrder(le: IdOrder, s: Search, r: Search, target: SpecId, rest: seq<SpecId>)
    requires InOrder(le, s) && r.tree == s.tree && r.rank == s.rank && r.active == s.active
    requires MetBefore(le, s, [target] + rest)
    ensures InOrder(le, r) && Grown(s, r) && MetBefore(le, r, rest)
  {
    forall v, w ensures OneAfterTheOther(le, r, v, w) { assert OneAfterTheOther(le, s, v, w); }
    forall v | UnderTop(r, v) ensures v in r.rank && forall t | t in rest :: le(v, t) && v != t {
      assert UnderTop(s, v);
      forall t | t in rest ensures le(v, t) && v != t { assert t in [target] + rest; }
    }
  }

  lemma {:induction false} WalkIsInOrder(le: IdOrder, g: Edges, s: Search, first: SpecId, node: SpecId)
    requires TotalOrder(le) && Sound(le, g, s, first) && MayStart(g, s, first, node)
    requires InOrder(le, s) && MetBefore(le, s, [node])
    ensures var r := Walked(le, g, s, node);
            && InOrder(le, r) && Grown(s, r) && node in r.rank && OnlyMeets(s, r, {node})
            && node in r.tree && r.tree[node] == PlaceBelow(s.tree, s.active, node)
    decreases g.Keys - s.visited, 0
  {
    var p, targets := Pushed(s, node), SortedIds(le, g[node]);
    PushIsInOrder(le, g, s, first, node);
    PushKeepsSound(le, g, s, first, node);
    FollowsAreInOrder(le, g, p, first, node, targets);
    FollowsKeepSound(le, g, p, first, node, targets);
    var all := AllWalked(le, g, p, targets);
    assert node in all.onPath;
    PopIsInOrder(le, all, node);
  }

  lemma {:induction false} FollowsAreInOrder(le: IdOrder, g: Edges, s: Search, first: SpecId, node: SpecId,
                                             targets: seq<SpecId>)
    requires TotalOrder(le) && Sound(le, g, s, first) && s.active != [] && s.active[|s.active| - 1] == node
    requires node in g && (forall v | v in targets :: v in g[node]) && Increasing(le, targets)
    requires InOrder(le, s) && MetBefore(le, s, targets)
    ensures var r := AllWalked(le, g, s, targets);
            && InOrder(le, r) && Grown(s, r)
            && MeetsBelow(s, r, node)
    decreases g.Keys - s.visited, 2, |targets|
  {
    if targets != [] {
      var target, rest := targets[0], targets[1..];
      assert target in targets && forall t | t in rest :: t in targets;
      var one := OneWalked(le, g, s, target);
      assert g.Keys - one.visited <= g.Keys - s.visited;
      FollowIsInOrder(le, g, s, first, node, target, rest);
      FollowKeepsSound(le, g, s, first, node, target);
      FollowsAreInOrder(le, g, one, first, node, rest);
    }
  }

  lemma TargetIsBelow(s: Search, r: Search, target: SpecId, node: SpecId)
    requires OnlyMeets(s, r, {target}) && s.active != [] && s.active[|s.active| - 1] == node && node in s.tree
    requires target in r.tree && r.tree[target] == PlaceBelow(s.tree, s.active, target)
    ensures MeetsBelow(s, r, node)
  {
  }

  lemma {:induction false} FollowIsInOrder(le: IdOrder, g: Edges, s: Search, first: SpecId, node: SpecId,
                                           target: SpecId, rest: seq<SpecId>)
    requires TotalOrder(le) && Sound(le, g, s, first) && s.active != [] && s.active[|s.active| - 1] == node
    requires node in g && target in g[node] && Increasing(le, [target] + rest)
    requires InOrder(le, s) && MetBefore(le, s, [target] + rest)
    ensures var r := OneWalked(le, g, s, target);
            && InOrder(le, r) && Grown(s, r) && MetBefore(le, r, rest)
            && MeetsBelow(s, r, node)
    decreases g.Keys - s.visited, 1
  {
    var r := OneWalked(le, g, s, target);
    if target in g && target !in s.onPath && target !in s.visited {
      assert node in s.visited && target in [target] + rest;
      WalkIsInOrder(le, g, s, first, target);
      TargetIsMet(le, s, r, target, rest);
      TargetIsBelow(s, r, target, node);
    } else {
      SkipIsInOrder(le, s, r, target, rest);
    }
  }

  /** The target joins those met from the top of the path; its id is smaller than those still to come. */
  lemma TargetIsMet(le: IdOrder, s: Search, r: Search, target: SpecId, rest: seq<SpecId>)
    requires MetBefore(le, s, [target] + rest) && Increasing(le, [target] + rest) && target !in s.tree
    requires Grown(s, r) && target in r.rank && OnlyMeets(s, r, {target})
    requires s.active != [] ==> s.active[|s.active| - 1] in s.tree
    ensures MetBefore(le, r, rest)
  {
    var all := [target] + rest;
    forall v | UnderTop(r, v) ensures v in r.rank && forall t | t in rest :: le(v, t) && v != t {
      if v == target {
        forall t | t in rest ensures le(v, t) && v != t {
          var i :| 0 <= i < |rest| && rest[i] == t;
          assert all[0] == target && all[i + 1] == t;
        }
      } else {
        assert !IsNew(s, r, v);
        assert UnderTop(s, v);
        forall t | t in rest ensures le(v, t) && v != t { assert t in all; }
      }
    }
  }

  /** Between two roots: everything so far is in order, and before the nodes still to come. */
  ghost predicate BetweenRoots(le: IdOrder, g: Edges, s: Search, first: SpecId, nodes: seq<SpecId>) {
    && Sound(le, g, s, first) && s.active == [] && (forall x | x in nodes :: x in g) && Increasing(le, nodes)
    && (s.visited == {} && nodes != [] ==> nodes[0] == first) && InOrder(le, s) && MetBefore(le, s, nodes)
  }

  ghost function NextRoot(le: IdOrder, g: Edges, s: Search, node: SpecId): Search
    requires TotalOrder(le) && Twinned(s) && node in g
  {
    if node in s.visited then s else Walked(le, g, s, node)
  }

  lemma RootWalkedInOrder(le: IdOrder, g: Edges, s: Search, first: SpecId, node: SpecId, rest: seq<SpecId>)
    requires TotalOrder(le) && Sound(le, g, s, first) && s.active == [] && MayStart(g, s, first, node)
    requires Increasing(le, [node] + rest) && InOrder(le, s) && MetBefore(le, s, [node] + rest)
    ensures var r := Walked(le, g, s, node); Sound(le, g, r, first) && InOrder(le, r) && MetBefore(le, r, rest)
  {
    assert node in [node] + rest;
    WalkIsInOrder(le, g, s, first, node);
    WalkKeepsSound(le, g, s, first, node);
    TargetIsMet(le, s, Walked(le, g, s, node), node, rest);
  }

  lemma RootIsInOrder(le: IdOrder, g: Edges, s: Search, first: SpecId, nodes: seq<SpecId>)
    requires TotalOrder(le) && BetweenRoots(le, g, s, first, nodes) && nodes != []
    ensures nodes[0] in g && BetweenRoots(le, g, NextRoot(le, g, s, nodes[0]), first, nodes[1..])
  {
    var node, rest := nodes[0], nodes[1..];
    assert node in nodes && nodes == [node] + rest && forall t | t in rest :: t in nodes;
    if node !in s.visited { RootWalkedInOrder(le, g, s, first, node, rest); }
  }

  lemma {:induction false} RootsAreInOrder(le: IdOrder, g: Edges, s: Search, first: SpecId, nodes: seq<SpecId>)
    requires TotalOrder(le) && BetweenRoots(le, g, s, first, nodes)
    ensures InOrder(le, RootsWalked(le, g, s, nodes))
    decreases |nodes|
  {
    if nodes != [] {
      RootIsInOrder(le, g, s, first, nodes);
      RootsAreInOrder(le, g, NextRoot(le, g, s, nodes[0]), first, nodes[1..]);
    }
  }

  lemma FinishedIsInOrder(le: IdOrder, g: Edges, first: SpecId)
    requires TotalOrder(le) && (SortedIds(le, g.Keys) != [] ==> first == SortedIds(le, g.Keys)[0])
    ensures InOrder(le, Finished(le, g))
  {
    RootsAreInOrder(le, g, UNSTARTED, first, SortedIds(le, g.Keys));
  }

  lemma FinishedIsFundamental(le: IdOrder, g: Edges)
    requires TotalOrder(le)
    ensures var s := Finished(le, g);
            SpanningForest(le, g, s.tree) && s.rank.Keys == g.Keys && AllFundamental(s.tree, CyclesOf(le, g))
  {
    var nodes, s := SortedIds(le, g.Keys), Finished(le, g);
    var first := if nodes == [] then Name("") else nodes[0];
    forall x | x in g && IsLeast(le, x, g.Keys) ensures x == first { FirstIsLeast(le, g.Keys, x); }
    FinishedIsSound(le, g, first);
    forall c | c in CyclesOf(le, g) ensures Fundamental(s.tree, c) {
      NormalFormIsFundamental(le, s.tree, s.raw, s.found, c);
    }
  }

  /** The listed cycles descend a spanning forest in which the specs met from one spec, and the roots,
      are met and finished in the order of their ids. */
  lemma WalkIsOrdered(le: IdOrder, g: Edges)
    requires TotalOrder(le)
    ensures var s := Finished(le, g);
            && SpanningForest(le, g, s.tree) && AllFundamental(s.tree, CyclesOf(le, g)) && s.rank.Keys == g.Keys
            && forall v, w | Siblings(s.tree, v, w) && le(v, w) :: s.rank[v] < s.rank[w]
  {
    var s, nodes := Finished(le, g), SortedIds(le, g.Keys);
    FinishedIsFundamental(le, g);
    FinishedIsInOrder(le, g, if nodes == [] then Name("") else nodes[0]);
    forall v, w | Siblings(s.tree, v, w) && le(v, w) ensures s.rank[v] < s.rank[w] {
      assert OneAfterTheOther(le, s, v, w);
    }
  }
}
