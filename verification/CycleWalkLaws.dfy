/** What the walk keeps (`arch/graph.py`), and so what the detector lists. */
module CycleWalkLaws {
  import opened CycleWalk
  import opened DependencyGraph
  import opened Ordering

  /** Everything the argument needs: the path, the three colours, the finishing order, the forest,
      and that the first node visited is a root. */
  ghost predicate Sound(le: IdOrder, g: Edges, s: Search, first: SpecId) {
    && Twinned(s) && PathState(g, s.active, s.onPath) && Colours(g, s.onPath, s.visited, s.rank, s.clock)
    && Recorded(g, s.raw, s.rank) && NormalForms(le, s.raw, s.found)
    && Planted(s.tree, s.active, s.visited, s.raw) && Forest(g, s.tree)
    && RootedAt(s, first)
  }

  ghost predicate RootedAt(s: Search, first: SpecId) {
    s.visited != {} ==> first in s.tree && s.tree[first].depth == 0
  }

  /** The walk may be called on the node: along an edge from the path, or on the first node first. */
  ghost predicate MayStart(g: Edges, s: Search, first: SpecId, node: SpecId) {
    && node in g && node !in s.visited && (s.visited == {} ==> node == first)
    && (s.active != [] ==> Edge(g, s.active[|s.active| - 1], node))
  }

  lemma PushKeepsSound(le: IdOrder, g: Edges, s: Search, first: SpecId, node: SpecId)
    requires Sound(le, g, s, first) && MayStart(g, s, first, node)
    ensures Sound(le, g, Pushed(s, node), first)
  {
    PushKeeps(g, s.active, s.onPath, s.visited, s.rank, s.clock, node);
    PushPlants(s.tree, s.active, s.visited, s.raw, node);
    PushGrowsForest(g, s.tree, s.active, node);
  }

  lemma PopKeepsSound(le: IdOrder, g: Edges, s: Search, first: SpecId, node: SpecId, targets: seq<SpecId>)
    requires Sound(le, g, s, first) && s.active != [] && s.active[|s.active| - 1] == node && node in g
    requires forall v :: v in targets <==> v in g[node]
    requires AllFollowed(g, s.visited, s.onPath, s.raw, node, targets)
    ensures Sound(le, g, Popped(s, node), first)
  {
    var path := s.active[..|s.active| - 1];
    assert s.active == path + [node];
    AllEdgesSettled(g, s.rank, s.visited, s.onPath, s.raw, node, targets);
    PopPath(g, path, s.onPath, node);
    PopPlants(s.tree, path, s.visited, s.raw, node);
    PopColours(g, s.onPath, s.visited, s.rank, s.clock, node);
    FinishSettles(g, s.raw, s.rank, s.clock, node);
  }

  /** The path suffix from the target on, closed by the edge back to it, is a cycle. */
  lemma CloseKeepsSound(le: IdOrder, g: Edges, s: Search, first: SpecId, target: SpecId)
    requires Sound(le, g, s, first) && target in s.active && Edge(g, s.active[|s.active| - 1], target)
    ensures Sound(le, g, Closed(le, s, target), first)
    ensures Reported(Closed(le, s, target).raw, s.active[|s.active| - 1], target)
  {
    var start := IndexOf(s.active, target);
    RecordKeeps(g, s.active, s.onPath, s.raw, s.rank, start, s.active[start..]);
    RecordPlants(s.tree, s.active, s.visited, s.raw, start, s.active[start..]);
    NormalFormsGrow(le, s.raw, s.found, s.active[start..]);
  }

  /** The recursive walk keeps it all, and finishes the node it was called on. */
  lemma {:induction false} WalkKeepsSound(le: IdOrder, g: Edges, s: Search, first: SpecId, node: SpecId)
    requires TotalOrder(le) && Sound(le, g, s, first) && MayStart(g, s, first, node)
    ensures Sound(le, g, Walked(le, g, s, node), first)
    decreases g.Keys - s.visited, 0
  {
    PushKeepsSound(le, g, s, first, node);
    var targets := SortedIds(le, g[node]);
    FollowsKeepSound(le, g, Pushed(s, node), first, node, targets);
    PopKeepsSound(le, g, AllWalked(le, g, Pushed(s, node), targets), first, node, targets);
  }

  lemma {:induction false} FollowsKeepSound(le: IdOrder, g: Edges, s: Search, first: SpecId, node: SpecId,
                                            targets: seq<SpecId>)
    requires TotalOrder(le) && Sound(le, g, s, first) && s.active != [] && s.active[|s.active| - 1] == node
    requires node in g && forall v | v in targets :: v in g[node]
    ensures Sound(le, g, AllWalked(le, g, s, targets), first)
    ensures var r := AllWalked(le, g, s, targets); AllFollowed(g, r.visited, r.onPath, r.raw, node, targets)
    decreases g.Keys - s.visited, 2, |targets|
  {
    if targets != [] {
      var target, rest := targets[0], targets[1..];
      FollowKeepsSound(le, g, s, first, node, target);
      var one := OneWalked(le, g, s, target);
      assert g.Keys - one.visited <= g.Keys - s.visited;
      FollowsKeepSound(le, g, one, first, node, rest);
      var r := AllWalked(le, g, s, targets);
      if target in g && target in r.onPath { ReportedGrows(one.raw, r.raw, node, target); }
      assert forall v :: v in targets <==> v == target || v in rest;
    }
  }

  lemma {:induction false} FollowKeepsSound(le: IdOrder, g: Edges, s: Search, first: SpecId, node: SpecId,
                                            target: SpecId)
    requires TotalOrder(le) && Sound(le, g, s, first) && s.active != [] && s.active[|s.active| - 1] == node
    requires node in g && target in g[node]
    ensures var r := OneWalked(le, g, s, target);
            Sound(le, g, r, first) && (target in g && target in r.onPath ==> Reported(r.raw, node, target))
    decreases g.Keys - s.visited, 1
  {
    if target in g {
      if target in s.onPath {
        CloseKeepsSound(le, g, s, first, target);
      } else if target !in s.visited {
        assert node in s.visited;
        WalkKeepsSound(le, g, s, first, target);
      }
    }
  }

  lemma {:induction false} RootsKeepSound(le: IdOrder, g: Edges, s: Search, first: SpecId, nodes: seq<SpecId>)
    requires TotalOrder(le) && Sound(le, g, s, first) && s.active == [] && forall x | x in nodes :: x in g
    requires s.visited == {} && nodes != [] ==> nodes[0] == first
    ensures Sound(le, g, RootsWalked(le, g, s, nodes), first)
    decreases |nodes|
  {
    if nodes != [] {
      assert nodes[0] in nodes;
      if nodes[0] !in s.visited { WalkKeepsSound(le, g, s, first, nodes[0]); }
      RootsKeepSound(le, g, if nodes[0] in s.visited then s else Walked(le, g, s, nodes[0]), first, nodes[1..]);
    }
  }

  lemma EveryNodeFinishes(le: IdOrder, g: Edges, s: Search, first: SpecId)
    requires Sound(le, g, s, first) && s.active == [] && g.Keys <= s.visited
    ensures s.rank.Keys == g.Keys && s.tree.Keys == g.Keys
  {
    assert s.onPath == {};
  }

  lemma FinishedIsSound(le: IdOrder, g: Edges, first: SpecId)
    requires TotalOrder(le) && (SortedIds(le, g.Keys) != [] ==> first == SortedIds(le, g.Keys)[0])
    ensures var s := Finished(le, g); Sound(le, g, s, first) && s.rank.Keys == g.Keys && s.tree.Keys == g.Keys
  {
    var nodes := SortedIds(le, g.Keys);
    RootsKeepSound(le, g, UNSTARTED, first, nodes);
    forall x | x in g.Keys ensures x in Finished(le, g).visited { assert x in nodes; }
    EveryNodeFinishes(le, g, Finished(le, g), first);
  }

  /** What the detector lists, for every graph and every order of its ids. */
  lemma CyclesDetect(le: IdOrder, g: Edges)
    requires TotalOrder(le)
    ensures Detects(le, g, CyclesOf(le, g)) && Increasing(LexOrder(le), CyclesOf(le, g))
  {
    var nodes := SortedIds(le, g.Keys);
    var first := if nodes == [] then Name("") else nodes[0];
    forall x | x in g && IsLeast(le, x, g.Keys) ensures x == first { FirstIsLeast(le, g.Keys, x); }
    FinishedIsSound(le, g, first);
    var s := Finished(le, g);
    FinishedWalkDetects(le, g, s.rank, s.tree, s.raw, s.found, CyclesOf(le, g));
  }
}
