/** The cycle detector of the spec dependency graph (`arch/graph.py`).
    Walks, cycles and their normal form; the finishing order that carries the completeness argument,
    and the forest along which cycles are met. */
module DependencyGraph {
  import opened Basics
  import opened Ordering

  type SpecId = Name

  /** spec-id -> declared `depends_on` ids. */
  type Edges = map<SpecId, set<SpecId>>

  /** An order on spec-ids; the program's is `NameOrder()`. */
  type IdOrder = (SpecId, SpecId) -> bool

  /** An edge the walk follows: its target is a known node. */
  predicate Edge(g: Edges, u: SpecId, v: SpecId) {
    u in g && v in g && v in g[u]
  }

  function Next(c: seq<SpecId>, i: nat): SpecId
    requires i < |c|
  {
    if i + 1 == |c| then c[0] else c[i + 1]
  }

  /** A non-empty walk along known edges whose last node leads back to its first. */
  ghost predicate ClosedWalk(g: Edges, w: seq<SpecId>) {
    w != [] && forall i: nat | i < |w| :: LeadsOn(g, w, i)
  }

  /** The node at `i` leads to the next one, the last to the first. */
  predicate LeadsOn(g: Edges, w: seq<SpecId>, i: nat)
    requires i < |w|
  {
    Edge(g, w[i], Next(w, i))
  }

  ghost predicate SimpleCycle(g: Edges, c: seq<SpecId>) {
    ClosedWalk(g, c) && Distinct(c)
  }

  ghost predicate Acyclic(g: Edges) {
    forall w :: !ClosedWalk(g, w)
  }

  /** The cycle is listed from its smallest id on. */
  ghost predicate Canonical(le: IdOrder, c: seq<SpecId>) {
    c != [] && forall x | x in c :: le(c[0], x)
  }

  ghost predicate OnCycle(c: seq<SpecId>, u: SpecId, v: SpecId) {
    exists i: nat :: i < |c| && GoesAt(c, i, u, v)
  }

  predicate GoesAt(c: seq<SpecId>, i: nat, u: SpecId, v: SpecId)
    requires i < |c|
  {
    c[i] == u && Next(c, i) == v
  }

  ghost predicate Reported(found: set<seq<SpecId>>, u: SpecId, v: SpecId) {
    exists c :: c in found && OnCycle(c, u, v)
  }

  function Rotate(c: seq<SpecId>, k: nat): seq<SpecId>
    requires k <= |c|
  {
    c[k..] + c[..k]
  }

  ghost predicate AllSimple(g: Edges, raw: set<seq<SpecId>>) {
    forall c | c in raw :: SimpleCycle(g, c)
  }

  /** `found` holds the normalised form of every cycle met, and nothing else. */
  ghost predicate NormalForms(le: IdOrder, raw: set<seq<SpecId>>, found: set<seq<SpecId>>)
  {
    && (forall d | d in raw && d != [] :: Normalise(le, d) in found)
    && (forall c | c in found :: exists d :: d in raw && d != [] && c == Normalise(le, d))
  }

  function SortedIds(le: IdOrder, s: set<SpecId>): (r: seq<SpecId>)
    requires TotalOrder(le)
    ensures forall x :: x in r <==> x in s
    ensures Increasing(le, r)
  {
    Sorted(le, s)
  }

  /** `list.index` */
  function IndexOf(s: seq<SpecId>, x: SpecId): (i: nat)
    requires x in s
    ensures i < |s| && s[i] == x && x !in s[..i]
  {
    if s[0] == x then 0 else 1 + IndexOf(s[1..], x)
  }

  /** The index of the first smallest id. */
  function MinIndex(le: IdOrder, c: seq<SpecId>): (i: nat)
    requires c != []
    ensures i < |c|
  {
    if |c| == 1 then 0
    else
      var i := 1 + MinIndex(le, c[1..]);
      if le(c[0], c[i]) then 0 else i
  }

  function Normalise(le: IdOrder, c: seq<SpecId>): seq<SpecId>
    requires c != []
  {
    Rotate(c, MinIndex(le, c))
  }

  lemma {:induction false} MinIndexIsLeast(le: IdOrder, c: seq<SpecId>)
    requires TotalOrder(le) && c != []
    ensures forall x | x in c :: le(c[MinIndex(le, c)], x)
  {
    if |c| > 1 {
      MinIndexIsLeast(le, c[1..]);
      forall x | x in c ensures le(c[MinIndex(le, c)], x) {
        assert x == c[0] || x in c[1..];
      }
    }
  }

  lemma NormaliseIsCanonical(le: IdOrder, c: seq<SpecId>)
    requires TotalOrder(le) && c != []
    ensures Canonical(le, Normalise(le, c))
  {
    MinIndexIsLeast(le, c);
    assert forall x | x in Normalise(le, c) :: x in c;
  }

  lemma RotatedAt(c: seq<SpecId>, k: nat, i: nat) returns (j: nat)
    requires k < |c| && i < |c|
    ensures j == if i + k < |c| then i + k else i + k - |c|
    ensures Rotate(c, k)[i] == c[j] && Next(Rotate(c, k), i) == Next(c, j)
  {
    j := if i + k < |c| then i + k else i + k - |c|;
  }

  lemma RotationKeepsEdge(c: seq<SpecId>, k: nat, u: SpecId, v: SpecId)
    requires k < |c| && OnCycle(c, u, v)
    ensures OnCycle(Rotate(c, k), u, v)
  {
    var j: nat :| j < |c| && GoesAt(c, j, u, v);
    var i := if j < k then j + |c| - k else j - k;
    var _ := RotatedAt(c, k, i);
    assert GoesAt(Rotate(c, k), i, u, v);
  }

  lemma RotationKeepsCycle(g: Edges, c: seq<SpecId>, k: nat)
    requires SimpleCycle(g, c) && k < |c|
    ensures SimpleCycle(g, Rotate(c, k))
  {
    var r := Rotate(c, k);
    forall i: nat | i < |r| ensures LeadsOn(g, r, i) {
      var j := RotatedAt(c, k, i);
      assert LeadsOn(g, c, j);
    }
    forall i, j | 0 <= i < j < |r| ensures r[i] != r[j] {
      var i' := RotatedAt(c, k, i);
      var j' := RotatedAt(c, k, j);
      assert c[i'] != c[j'];
    }
  }

  /** Two listings of one cycle that both start at its smallest id are the same list. */
  lemma CanonicalIsUnique(le: IdOrder, c: seq<SpecId>, k: nat)
    requires TotalOrder(le) && Distinct(c) && k < |c| && Canonical(le, c) && Canonical(le, Rotate(c, k))
    ensures Rotate(c, k) == c
  {
    var r := Rotate(c, k);
    assert r[0] == c[k] && c[k] in c && c[0] in r by {
      assert r[if k == 0 then 0 else |c| - k] == c[0];
    }
    assert c[0] == c[k];
  }

  /** The finishing order: an edge out of a finished node leads to a node that finished earlier,
      or lies on a recorded cycle. */
  ghost predicate Settled(g: Edges, rank: map<SpecId, nat>, found: set<seq<SpecId>>) {
    forall u, v | u in rank && Edge(g, u, v) :: EdgeSettled(rank, found, u, v)
  }

  ghost predicate EdgeSettled(rank: map<SpecId, nat>, found: set<seq<SpecId>>, u: SpecId, v: SpecId)
    requires u in rank
  {
    (v in rank && rank[v] < rank[u]) || Reported(found, u, v)
  }

  lemma {:induction false} EarliestOf(w: seq<SpecId>, rank: map<SpecId, nat>) returns (i: nat)
    requires w != [] && forall x | x in w :: x in rank
    ensures i < |w| && forall j | 0 <= j < |w| :: rank[w[i]] <= rank[w[j]]
  {
    i := 0;
    if |w| > 1 {
      var k := EarliestOf(w[1..], rank);
      i := if rank[w[1 + k]] < rank[w[0]] then 1 + k else 0;
      assert forall j | 1 <= j < |w| :: w[j] == w[1..][j - 1];
    }
  }

  /** Once every node is finished, no closed walk avoids the recorded cycles. */
  lemma EveryWalkMeetsACycle(g: Edges, rank: map<SpecId, nat>, found: set<seq<SpecId>>, w: seq<SpecId>)
    requires rank.Keys == g.Keys && Settled(g, rank, found) && ClosedWalk(g, w)
    ensures exists i :: 0 <= i < |w| && Reported(found, w[i], Next(w, i))
  {
    forall x | x in w ensures x in rank {
      var i :| 0 <= i < |w| && w[i] == x;
      assert LeadsOn(g, w, i);
    }
    var i := EarliestOf(w, rank);
    assert LeadsOn(g, w, i) && EdgeSettled(rank, found, w[i], Next(w, i));
  }

  /** Consecutive nodes are joined by edges. */
  ghost predicate Path(g: Edges, p: seq<SpecId>) {
    forall i: nat | i + 1 < |p| :: StepsOn(g, p, i)
  }

  predicate StepsOn(g: Edges, p: seq<SpecId>, i: nat)
    requires i + 1 < |p|
  {
    Edge(g, p[i], p[i + 1])
  }

  lemma PathGrows(g: Edges, p: seq<SpecId>, node: SpecId)
    ensures Distinct(p + [node]) <==> Distinct(p) && node !in p
    ensures Path(g, p + [node]) <==> Path(g, p) && (p != [] ==> Edge(g, p[|p| - 1], node))
  {
    var q := p + [node];
    assert forall i | 0 <= i < |p| :: q[i] == p[i];
    assert q[|p|] == node;
    if Distinct(q) {
      assert forall i | 0 <= i < |p| :: q[i] != q[|p|];
    }
    if Path(g, q) {
      forall i: nat | i + 1 < |p| ensures StepsOn(g, p, i) { assert StepsOn(g, q, i); }
      if p != [] { assert StepsOn(g, q, |p| - 1); }
    }
    if Path(g, p) && (p != [] ==> Edge(g, p[|p| - 1], node)) {
      forall i: nat | i + 1 < |q| ensures StepsOn(g, q, i) {
        if i + 1 < |p| { assert StepsOn(g, p, i); }
      }
    }
  }

  /** `active` is a duplicate-free path and `onPath` its set. */
  ghost predicate PathState(g: Edges, active: seq<SpecId>, onPath: set<SpecId>) {
    Distinct(active) && Path(g, active) && forall x :: x in onPath <==> x in active
  }

  /** The three colours: unvisited, on the path, finished. */
  ghost predicate Colours(g: Edges, onPath: set<SpecId>, visited: set<SpecId>, rank: map<SpecId, nat>, clock: nat) {
    && (forall x | x in onPath :: x !in rank)
    && (forall x :: x in visited <==> x in onPath || x in rank)
    && (forall x | x in visited :: x in g)
    && forall x | x in rank :: rank[x] < clock
  }

  /** Every cycle met is a real simple cycle, and every finished node's edges are settled. */
  ghost predicate Recorded(g: Edges, raw: set<seq<SpecId>>, rank: map<SpecId, nat>) {
    AllSimple(g, raw) && Settled(g, rank, raw)
  }

  /** Where the walk first met a node: under which node, and how deep. */
  datatype Place = Place(parent: SpecId, depth: nat)

  type Tree = map<SpecId, Place>

  ghost predicate TreeStep(tree: Tree, u: SpecId, v: SpecId) {
    u in tree && v in tree && tree[v] == Place(u, tree[u].depth + 1)
  }

  ghost predicate TreeStepAt(tree: Tree, p: seq<SpecId>, i: nat)
    requires i + 1 < |p|
  {
    TreeStep(tree, p[i], p[i + 1])
  }

  /** The path descends the tree one generation at a time. */
  ghost predicate TreePath(tree: Tree, p: seq<SpecId>) {
    (forall x | x in p :: x in tree) && forall i: nat | i + 1 < |p| :: TreeStepAt(tree, p, i)
  }

  ghost predicate AllTreePaths(tree: Tree, raw: set<seq<SpecId>>) {
    forall c | c in raw :: TreePath(tree, c)
  }

  lemma TreePathGrows(tree: Tree, p: seq<SpecId>, node: SpecId, place: Place)
    requires TreePath(tree, p) && node !in tree
    requires p != [] ==> place == Place(p[|p| - 1], tree[p[|p| - 1]].depth + 1)
    ensures TreePath(tree[node := place], p + [node])
  {
    var q, more := p + [node], tree[node := place];
    forall i: nat | i + 1 < |q| ensures TreeStepAt(more, q, i) {
      if i + 1 < |p| { assert TreeStepAt(tree, p, i); }
    }
  }

  lemma TreePathStays(tree: Tree, p: seq<SpecId>, node: SpecId, place: Place)
    requires TreePath(tree, p) && node !in tree
    ensures TreePath(tree[node := place], p)
  {
    var more := tree[node := place];
    forall i: nat | i + 1 < |p| ensures TreeStepAt(more, p, i) {
      assert TreeStepAt(tree, p, i);
    }
  }

  lemma AllTreePathsStay(tree: Tree, raw: set<seq<SpecId>>, node: SpecId, place: Place)
    requires AllTreePaths(tree, raw) && node !in tree
    ensures AllTreePaths(tree[node := place], raw)
  {
    forall c | c in raw ensures TreePath(tree[node := place], c) {
      TreePathStays(tree, c, node, place);
    }
  }

  /** The tree spans the visited nodes; the path and every cycle met descend it. */
  ghost predicate Planted(tree: Tree, active: seq<SpecId>, visited: set<SpecId>, raw: set<seq<SpecId>>) {
    TreePath(tree, active) && AllTreePaths(tree, raw) && forall x :: x in tree <==> x in visited
  }

  /** A node met under the last node of the path, or a root. */
  function PlaceBelow(tree: Tree, active: seq<SpecId>, node: SpecId): Place {
    if active != [] && active[|active| - 1] in tree then
      Place(active[|active| - 1], tree[active[|active| - 1]].depth + 1)
    else Place(node, 0)
  }

  lemma PushPlants(tree: Tree, active: seq<SpecId>, visited: set<SpecId>, raw: set<seq<SpecId>>, node: SpecId)
    requires Planted(tree, active, visited, raw) && node !in visited
    ensures Planted(tree[node := PlaceBelow(tree, active, node)], active + [node], visited + {node}, raw)
  {
    var place := PlaceBelow(tree, active, node);
    TreePathGrows(tree, active, node, place);
    AllTreePathsStay(tree, raw, node, place);
  }

  lemma PopPlants(tree: Tree, path: seq<SpecId>, visited: set<SpecId>, raw: set<seq<SpecId>>, node: SpecId)
    requires Planted(tree, path + [node], visited, raw)
    ensures Planted(tree, path, visited, raw)
  {
    TreePathPart(tree, path + [node], 0, |path|);
    assert (path + [node])[0..|path|] == path;
  }

  lemma RecordPlants(tree: Tree, active: seq<SpecId>, visited: set<SpecId>, raw: set<seq<SpecId>>, start: nat,
                     cycle: seq<SpecId>)
    requires Planted(tree, active, visited, raw) && start < |active| && cycle == active[start..]
    ensures Planted(tree, active, visited, raw + {cycle})
  {
    TreePathPart(tree, active, start, |active|);
    assert active[start..|active|] == active[start..];
  }

  lemma TreePathPart(tree: Tree, p: seq<SpecId>, lo: nat, hi: nat)
    requires TreePath(tree, p) && lo <= hi <= |p|
    ensures TreePath(tree, p[lo..hi])
  {
    forall i: nat | i + 1 < hi - lo ensures TreeStepAt(tree, p[lo..hi], i) {
      assert TreeStepAt(tree, p, lo + i);
    }
  }

  /** A root, or met along an edge from its parent, one generation below it. */
  ghost predicate Placed(g: Edges, tree: Tree, v: SpecId)
    requires v in tree
  {
    tree[v] == Place(v, 0) || (Edge(g, tree[v].parent, v) && TreeStep(tree, tree[v].parent, v))
  }

  ghost predicate Forest(g: Edges, tree: Tree) {
    forall v | v in tree :: Placed(g, tree, v)
  }

  lemma PushGrowsForest(g: Edges, tree: Tree, active: seq<SpecId>, node: SpecId)
    requires Forest(g, tree) && node !in tree && TreePath(tree, active)
    requires active != [] ==> Edge(g, active[|active| - 1], node)
    ensures Forest(g, tree[node := PlaceBelow(tree, active, node)])
  {
    var more := tree[node := PlaceBelow(tree, active, node)];
    forall v | v in more ensures Placed(g, more, v) {
      if v != node { assert Placed(g, tree, v); }
    }
  }

  lemma SuffixIsCycle(g: Edges, active: seq<SpecId>, start: nat)
    requires Distinct(active) && Path(g, active) && start < |active|
    requires Edge(g, active[|active| - 1], active[start])
    ensures SimpleCycle(g, active[start..])
    ensures OnCycle(active[start..], active[|active| - 1], active[start])
  {
    var c := active[start..];
    forall i: nat | i < |c| ensures LeadsOn(g, c, i) {
      if i + 1 < |c| { assert StepsOn(g, active, start + i); }
    }
    var last := |c| - 1;
    assert GoesAt(c, last, active[|active| - 1], active[start]);
  }

  lemma RecordKeeps(g: Edges, active: seq<SpecId>, onPath: set<SpecId>, raw: set<seq<SpecId>>,
                    rank: map<SpecId, nat>, start: nat, cycle: seq<SpecId>)
    requires PathState(g, active, onPath) && Recorded(g, raw, rank)
    requires start < |active| && Edge(g, active[|active| - 1], active[start]) && cycle == active[start..]
    ensures Recorded(g, raw + {cycle}, rank)
    ensures Reported(raw + {cycle}, active[|active| - 1], active[start])
  {
    var more := raw + {cycle};
    SuffixIsCycle(g, active, start);
    assert cycle in more;
    KeepSettled(g, rank, raw, more);
  }

  lemma PushKeeps(g: Edges, active: seq<SpecId>, onPath: set<SpecId>, visited: set<SpecId>,
                  rank: map<SpecId, nat>, clock: nat, node: SpecId)
    requires PathState(g, active, onPath) && Colours(g, onPath, visited, rank, clock)
    requires node in g && node !in visited
    requires active != [] ==> Edge(g, active[|active| - 1], node)
    ensures PathState(g, active + [node], onPath + {node})
    ensures Colours(g, onPath + {node}, visited + {node}, rank, clock)
  {
    PathGrows(g, active, node);
  }

  lemma PopPath(g: Edges, path: seq<SpecId>, onPath: set<SpecId>, node: SpecId)
    requires PathState(g, path + [node], onPath)
    ensures PathState(g, path, onPath - {node}) && node in onPath
  {
    PathGrows(g, path, node);
    var p := path + [node];
    assert p[|path|] == node;
    forall x ensures x in onPath - {node} <==> x in path {
      assert x in p <==> x in path || x == node;
    }
  }

  lemma PopColours(g: Edges, onPath: set<SpecId>, visited: set<SpecId>, rank: map<SpecId, nat>,
                   clock: nat, node: SpecId)
    requires Colours(g, onPath, visited, rank, clock) && node in onPath
    ensures Colours(g, onPath - {node}, visited, rank[node := clock], clock + 1)
  {
  }

  /** Finishing a node whose every edge is settled by then. */
  lemma FinishSettles(g: Edges, raw: set<seq<SpecId>>, rank: map<SpecId, nat>, clock: nat, node: SpecId)
    requires Settled(g, rank, raw) && node !in rank && forall x | x in rank :: rank[x] < clock
    requires forall v | Edge(g, node, v) :: v in rank || Reported(raw, node, v)
    ensures Settled(g, rank[node := clock], raw)
  {
    var more := rank[node := clock];
    forall u, v | u in more && Edge(g, u, v) ensures EdgeSettled(more, raw, u, v) {
      if u != node { assert EdgeSettled(rank, raw, u, v); }
    }
  }

  ghost predicate AllFollowed(g: Edges, visited: set<SpecId>, onPath: set<SpecId>,
                              found: set<seq<SpecId>>, node: SpecId, targets: seq<SpecId>) {
    forall v | v in targets && v in g :: v in visited && (v in onPath ==> Reported(found, node, v))
  }

  lemma AllEdgesSettled(g: Edges, rank: map<SpecId, nat>, visited: set<SpecId>, onPath: set<SpecId>,
                        found: set<seq<SpecId>>, node: SpecId, targets: seq<SpecId>)
    requires AllFollowed(g, visited, onPath, found, node, targets)
    requires forall x | x in visited :: x in onPath || x in rank
    requires node in g && forall v :: v in targets <==> v in g[node]
    ensures forall v | Edge(g, node, v) :: v in rank || Reported(found, node, v)
  {
  }

  lemma ReportedGrows(found: set<seq<SpecId>>, more: set<seq<SpecId>>, u: SpecId, v: SpecId)
    requires found <= more && Reported(found, u, v)
    ensures Reported(more, u, v)
  {
  }

  lemma KeepSettled(g: Edges, rank: map<SpecId, nat>, found: set<seq<SpecId>>, more: set<seq<SpecId>>)
    requires Settled(g, rank, found) && found <= more
    ensures Settled(g, rank, more)
  {
    forall u, v | u in rank && Edge(g, u, v) ensures EdgeSettled(rank, more, u, v) {
      assert EdgeSettled(rank, found, u, v);
    }
  }

  /** The edge at `i` of the walk lies on a listed cycle. */
  ghost predicate MeetsAt(w: seq<SpecId>, i: nat, r: seq<seq<SpecId>>)
    requires i < |w|
  {
    exists c :: c in r && OnCycle(c, w[i], Next(w, i))
  }

  ghost predicate Meets(w: seq<SpecId>, r: seq<seq<SpecId>>) {
    exists i: nat :: i < |w| && MeetsAt(w, i, r)
  }

  /** Read from some member on, the cycle descends the tree: only its last edge leads back up. */
  ghost predicate Fundamental(tree: Tree, c: seq<SpecId>) {
    exists k: nat :: k < |c| && TreePath(tree, Rotate(c, k))
  }

  ghost predicate AllFundamental(tree: Tree, r: seq<seq<SpecId>>) {
    forall c | c in r :: Fundamental(tree, c)
  }

  /** The whole promise of the detector: every listed cycle is a simple cycle of real edges from
      its smallest id on, every closed walk uses an edge of a listed cycle, and every listed cycle
      descends one spanning forest, rooted at the first spec in order, but for its last edge. */
  ghost predicate Detects(le: IdOrder, g: Edges, r: seq<seq<SpecId>>) {
    && (forall c | c in r :: SimpleCycle(g, c) && Canonical(le, c))
    && (forall w {:trigger Meets(w, r)} | ClosedWalk(g, w) :: Meets(w, r))
    && (exists tree :: SpanningForest(le, g, tree) && AllFundamental(tree, r))
  }

  /** Every node has its place, along edges of the graph, and the first one in order is a root. */
  ghost predicate SpanningForest(le: IdOrder, g: Edges, tree: Tree) {
    && tree.Keys == g.Keys && Forest(g, tree)
    && forall x | x in g && IsLeast(le, x, g.Keys) :: tree[x].depth == 0
  }

  lemma NormalFormsGrow(le: IdOrder, raw: set<seq<SpecId>>, found: set<seq<SpecId>>, c: seq<SpecId>)
    requires NormalForms(le, raw, found) && c != []
    ensures NormalForms(le, raw + {c}, found + {Normalise(le, c)})
  {
    var more := raw + {c};
    forall n | n in found + {Normalise(le, c)}
      ensures exists d :: d in more && d != [] && n == Normalise(le, d)
    {
      var d :| (d in raw || d == c) && d != [] && n == Normalise(le, d);
      assert d in more;
    }
  }

  lemma NormalFormsDetect(le: IdOrder, g: Edges, raw: set<seq<SpecId>>, found: set<seq<SpecId>>,
                          c: seq<SpecId>)
    requires TotalOrder(le) && NormalForms(le, raw, found) && AllSimple(g, raw) && c in found
    ensures SimpleCycle(g, c) && Canonical(le, c)
  {
    var d :| d in raw && d != [] && c == Normalise(le, d);
    RotationKeepsCycle(g, d, MinIndex(le, d));
    NormaliseIsCanonical(le, d);
  }

  lemma NormalFormsReport(le: IdOrder, raw: set<seq<SpecId>>, found: set<seq<SpecId>>, u: SpecId, v: SpecId)
    requires NormalForms(le, raw, found) && Reported(raw, u, v)
    ensures Reported(found, u, v)
  {
    var d :| d in raw && OnCycle(d, u, v);
    assert Normalise(le, d) in found;
    RotationKeepsEdge(d, MinIndex(le, d), u, v);
  }

  lemma RotateBack(c: seq<SpecId>, k: nat, l: nat)
    requires k < |c| && l < |c|
    ensures Rotate(Rotate(c, k), l) == Rotate(c, if k + l < |c| then k + l else k + l - |c|)
  {
    var m := if k + l < |c| then k + l else k + l - |c|;
    assert |Rotate(Rotate(c, k), l)| == |Rotate(c, m)|;
    forall i: nat | i < |c| ensures Rotate(Rotate(c, k), l)[i] == Rotate(c, m)[i] {
      var j := RotatedAt(Rotate(c, k), l, i);
      var j' := RotatedAt(c, k, j);
      var j'' := RotatedAt(c, m, i);
    }
  }

  lemma NormalFormIsFundamental(le: IdOrder, tree: Tree, raw: set<seq<SpecId>>, found: set<seq<SpecId>>,
                                c: seq<SpecId>)
    requires NormalForms(le, raw, found) && AllTreePaths(tree, raw) && c in found
    ensures Fundamental(tree, c)
  {
    var d :| d in raw && d != [] && c == Normalise(le, d);
    var k := MinIndex(le, d);
    var back := if k == 0 then 0 else |d| - k;
    RotateBack(d, k, back);
    assert Rotate(d, 0) == d;
    assert TreePath(tree, Rotate(c, back));
  }

  lemma FinishedWalkDetects(le: IdOrder, g: Edges, rank: map<SpecId, nat>, tree: Tree, raw: set<seq<SpecId>>,
                            found: set<seq<SpecId>>, r: seq<seq<SpecId>>)
    requires rank.Keys == g.Keys && Settled(g, rank, raw) && AllSimple(g, raw)
    requires TotalOrder(le) && NormalForms(le, raw, found) && AllTreePaths(tree, raw)
    requires SpanningForest(le, g, tree)
    requires forall c :: c in r <==> c in found
    ensures Detects(le, g, r)
  {
    forall c | c in r ensures Fundamental(tree, c) {
      NormalFormIsFundamental(le, tree, raw, found, c);
    }
    assert AllFundamental(tree, r);
    forall c | c in r ensures SimpleCycle(g, c) && Canonical(le, c) {
      NormalFormsDetect(le, g, raw, found, c);
    }
    forall w | ClosedWalk(g, w) ensures Meets(w, r) {
      EveryWalkMeetsACycle(g, rank, raw, w);
      var i: nat :| i < |w| && Reported(raw, w[i], Next(w, i));
      NormalFormsReport(le, raw, found, w[i], Next(w, i));
      assert MeetsAt(w, i, r);
    }
  }

  function SortedCycles(le: IdOrder, found: set<seq<SpecId>>): (r: seq<seq<SpecId>>)
    requires TotalOrder(le)
    ensures forall c :: c in r <==> c in found
    ensures Increasing(LexOrder(le), r)
  {
    LexIsTotal(le);
    Sorted(LexOrder(le), found)
  }

  lemma FirstIsLeast(le: IdOrder, s: set<SpecId>, x: SpecId)
    requires TotalOrder(le) && IsLeast(le, x, s)
    ensures SortedIds(le, s) != [] && SortedIds(le, s)[0] == x
  {
    var r := Sorted(le, s);
    assert x in r;
    assert r[0] in s && le(x, r[0]);
    var i :| 0 <= i < |r| && r[i] == x;
    assert le(r[0], r[i]);
  }
}
