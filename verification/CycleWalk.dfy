/** The depth-first walk that lists dependency cycles (`arch/graph.py`): a class over the four
    collections the nested function shares, proved to be a function of them. */
module CycleWalk {
  import opened DependencyGraph
  import opened Ordering

  // The walk as a function.

  /** The four collections the walk shares, and beside them the cycles as met, the order in which
      nodes finish and the forest along which they are met. */
  datatype Search = Search(active: seq<SpecId>, onPath: set<SpecId>, visited: set<SpecId>, found: set<seq<SpecId>>,
                           raw: set<seq<SpecId>>, rank: map<SpecId, nat>, clock: nat, tree: Tree)

  const UNSTARTED := Search([], {}, {}, {}, {}, map[], 0, map[])

  function Pushed(s: Search, node: SpecId): Search {
    s.(active := s.active + [node], onPath := s.onPath + {node}, visited := s.visited + {node},
       tree := s.tree[node := PlaceBelow(s.tree, s.active, node)])
  }

  function Popped(s: Search, node: SpecId): Search
    requires s.active != []
  {
    s.(active := s.active[..|s.active| - 1], onPath := s.onPath - {node},
       rank := s.rank[node := s.clock], clock := s.clock + 1)
  }

  function Suffix(active: seq<SpecId>, target: SpecId): seq<SpecId>
    requires target in active
  {
    active[IndexOf(active, target)..]
  }

  function Closed(le: IdOrder, s: Search, target: SpecId): Search
    requires target in s.active
  {
    s.(found := s.found + {Normalise(le, Suffix(s.active, target))}, raw := s.raw + {Suffix(s.active, target)})
  }

  /** `on_path` is the set of `active`, and visited. */
  ghost predicate Twinned(s: Search) {
    (forall x :: x in s.onPath <==> x in s.active) && s.onPath <= s.visited
  }

  /** Only grown since: the path as before. */
  ghost predicate SamePath(s: Search, r: Search) {
    r.active == s.active && r.onPath == s.onPath && s.visited <= r.visited && s.raw <= r.raw
  }

  lemma PopUndoesPush(s: Search, node: SpecId, all: Search)
    requires Twinned(s) && node !in s.visited && SamePath(Pushed(s, node), all)
    ensures SamePath(s, Popped(all, node)) && node in Popped(all, node).visited
  {
  }

  ghost function Walked(le: IdOrder, g: Edges, s: Search, node: SpecId): (r: Search)
    requires TotalOrder(le) && Twinned(s) && node in g && node !in s.visited
    ensures SamePath(s, r) && node in r.visited
    decreases g.Keys - s.visited, 0
  {
    var pushed := Pushed(s, node);
    assert node in g.Keys - s.visited && node in pushed.visited;
    var all := AllWalked(le, g, pushed, SortedIds(le, g[node]));
    PopUndoesPush(s, node, all);
    Popped(all, node)
  }

  ghost function AllWalked(le: IdOrder, g: Edges, s: Search, targets: seq<SpecId>): (r: Search)
    requires TotalOrder(le) && Twinned(s)
    ensures SamePath(s, r)
    decreases g.Keys - s.visited, 2, |targets|
  {
    if targets == [] then s
    else
      var one := OneWalked(le, g, s, targets[0]);
      assert g.Keys - one.visited <= g.Keys - s.visited;
      AllWalked(le, g, one, targets[1..])
  }

  /** One target: unknown targets are skipped, a back edge closes a cycle, an unvisited target is
      walked, any other is skipped. */
  ghost function OneWalked(le: IdOrder, g: Edges, s: Search, target: SpecId): (r: Search)
    requires TotalOrder(le) && Twinned(s)
    ensures SamePath(s, r) && (target in g ==> target in r.visited)
    decreases g.Keys - s.visited, 1
  {
    if target !in g then s
    else if target in s.onPath then Closed(le, s, target)
    else if target !in s.visited then Walked(le, g, s, target)
    else s
  }

  ghost function RootsWalked(le: IdOrder, g: Edges, s: Search, nodes: seq<SpecId>): (r: Search)
    requires TotalOrder(le) && Twinned(s) && forall x | x in nodes :: x in g
    ensures SamePath(s, r) && forall x | x in nodes :: x in r.visited
    decreases |nodes|
  {
    if nodes == [] then s
    else
      assert nodes[0] in nodes;
      RootsWalked(le, g, if nodes[0] in s.visited then s else Walked(le, g, s, nodes[0]), nodes[1..])
  }

  ghost function Finished(le: IdOrder, g: Edges): Search
    requires TotalOrder(le)
  {
    RootsWalked(le, g, UNSTARTED, SortedIds(le, g.Keys))
  }

  /** The listing: a function of the graph and the order of its ids alone. */
  ghost function CyclesOf(le: IdOrder, g: Edges): seq<seq<SpecId>>
    requires TotalOrder(le)
  {
    SortedCycles(le, Finished(le, g).found)
  }

  // The walk as the program runs it.

  class Walker {
    const le: IdOrder
    const edges: Edges
    var active: seq<SpecId>
    var onPath: set<SpecId>
    var visited: set<SpecId>
    var found: set<seq<SpecId>>
    ghost var search: Search

    ghost predicate Valid()
      reads this
    {
      && search.active == active && search.onPath == onPath && search.visited == visited && search.found == found
      && Twinned(search)
    }

    constructor (order: IdOrder, g: Edges)
      ensures Valid() && edges == g && le == order && search == UNSTARTED
    {
      le, edges := order, g;
      active, onPath, visited, found, search := [], {}, {}, {}, UNSTARTED;
    }

    /** The nested `walk`. */
    method Walk(node: SpecId)
      requires TotalOrder(le) && Valid() && node in edges && node !in visited
      modifies this
      ensures Valid() && search == Walked(le, edges, old(search), node)
      decreases edges.Keys - visited, 0
    {
      visited := visited + {node};
      onPath := onPath + {node};
      active := active + [node];
      search := Pushed(search, node);
      var targets := SortedIds(le, edges[node]);
      FollowAll(targets);
      onPath := onPath - {node};
      active := active[..|active| - 1];
      search := Popped(search, node);
    }

    /** The loop over the sorted targets. */
    method FollowAll(targets: seq<SpecId>)
      requires TotalOrder(le) && Valid()
      modifies this
      ensures Valid() && search == AllWalked(le, edges, old(search), targets)
      decreases edges.Keys - visited, 2
    {
      for i := 0 to |targets|
        invariant Valid() && old(visited) <= visited
        invariant AllWalked(le, edges, old(search), targets) == AllWalked(le, edges, search, targets[i..])
      {
        assert targets[i..][0] == targets[i] && targets[i..][1..] == targets[i + 1..];
        Follow(targets[i]);
      }
    }

    /** One target of the loop. */
    method Follow(target: SpecId)
      requires TotalOrder(le) && Valid()
      modifies this
      ensures Valid() && search == OneWalked(le, edges, old(search), target)
      decreases edges.Keys - visited, 1
    {
      if target !in edges {
        return;
      }
      if target in onPath {
        var start := IndexOf(active, target);
        found := found + {Normalise(le, active[start..])};
        search := Closed(le, search, target);
      } else if target !in visited {
        Walk(target);
      }
    }
  }

  method Cycles(le: IdOrder, g: Edges) returns (r: seq<seq<SpecId>>)
    requires TotalOrder(le)
    ensures r == CyclesOf(le, g)
  {
    var w := new Walker(le, g);
    var nodes := SortedIds(le, g.Keys);
    for i := 0 to |nodes|
      invariant w.Valid() && w.edges == g && w.le == le && fresh(w)
      invariant Finished(le, g) == RootsWalked(le, g, w.search, nodes[i..])
    {
      assert nodes[i..][0] == nodes[i] && nodes[i..][1..] == nodes[i + 1..];
      if nodes[i] !in w.visited {
        w.Walk(nodes[i]);
      }
    }
    r := SortedCycles(le, w.found);
  }
}
