/** What a reader of the cycle listing may conclude from it, and what it leaves out
    (`arch/graph.py`). */
module CycleListing {
  import opened Basics
  import opened CycleWalk
  import opened CycleWalkLaws
  import opened DependencyGraph
  import opened Ordering

  lemma ClosedWalkIsNoticed(le: IdOrder, g: Edges, r: seq<seq<SpecId>>, w: seq<SpecId>)
    requires Detects(le, g, r) && ClosedWalk(g, w)
    ensures r != []
  {
    assert Meets(w, r);
    var i: nat :| i < |w| && MeetsAt(w, i, r);
    var c :| c in r && OnCycle(c, w[i], Next(w, i));
  }

  /** `--check` relies on this: nothing is listed exactly when no dependency loops back. */
  lemma EmptyIffAcyclic(le: IdOrder, g: Edges, r: seq<seq<SpecId>>)
    requires Detects(le, g, r)
    ensures r == [] <==> Acyclic(g)
  {
    forall w | ClosedWalk(g, w) ensures r != [] { ClosedWalkIsNoticed(le, g, r, w); }
    if r != [] {
      assert r[0] in r;
      assert ClosedWalk(g, r[0]);
    }
  }

  /** Each cycle is listed once: no two entries are rotations of one another. */
  lemma NoCycleTwice(le: IdOrder, g: Edges, r: seq<seq<SpecId>>, i: nat, j: nat, k: nat)
    requires TotalOrder(le) && Detects(le, g, r) && Increasing(LexOrder(le), r)
    requires i < |r| && j < |r| && i != j && k < |r[i]|
    ensures Rotate(r[i], k) != r[j]
  {
    assert r[i] in r && r[j] in r;
    assert r[i] != r[j];
    if Rotate(r[i], k) == r[j] {
      CanonicalIsUnique(le, r[i], k);
    }
  }

  lemma {:induction false} DepthAlong(tree: Tree, p: seq<SpecId>)
    requires TreePath(tree, p) && p != []
    ensures tree[p[|p| - 1]].depth == tree[p[0]].depth + |p| - 1
  {
    if |p| > 1 {
      var q := p[..|p| - 1];
      TreePathPart(tree, p, 0, |p| - 1);
      assert p[0..|p| - 1] == q;
      DepthAlong(tree, q);
      assert TreeStepAt(tree, p, |p| - 2);
    }
  }

  /** Parents are unique: two descents to one node agree from the node upwards. */
  lemma {:induction false} SameDescent(tree: Tree, p: seq<SpecId>, q: seq<SpecId>)
    requires TreePath(tree, p) && TreePath(tree, q)
    requires q != [] && |q| <= |p| && p[|p| - 1] == q[|q| - 1]
    ensures q == p[|p| - |q|..]
  {
    if |q| == 1 {
    } else {
      var p', q' := p[..|p| - 1], q[..|q| - 1];
      TreePathPart(tree, p, 0, |p| - 1);
      TreePathPart(tree, q, 0, |q| - 1);
      assert p[0..|p| - 1] == p' && q[0..|q| - 1] == q';
      assert TreeStepAt(tree, p, |p| - 2) && TreeStepAt(tree, q, |q| - 2);
      SameDescent(tree, p', q');
      assert q == q' + [q[|q| - 1]] && p[|p| - |q|..] == p'[|p'| - |q'|..] + [p[|p| - 1]];
    }
  }

  /** An edge of a listed cycle is a tree edge, or the last edge of the descent it closes. */
  lemma ListedEdge(tree: Tree, r: seq<seq<SpecId>>, w: seq<SpecId>, i: nat) returns (d: seq<SpecId>, k: nat)
    requires AllFundamental(tree, r) && i < |w| && MeetsAt(w, i, r)
    ensures d in r && k < |d| && TreePath(tree, Rotate(d, k))
    ensures TreeStep(tree, w[i], Next(w, i)) ||
            (Rotate(d, k)[|d| - 1] == w[i] && Rotate(d, k)[0] == Next(w, i))
  {
    d :| d in r && OnCycle(d, w[i], Next(w, i));
    k :| k < |d| && TreePath(tree, Rotate(d, k));
    RotationKeepsEdge(d, k, w[i], Next(w, i));
    var b := Rotate(d, k);
    var j: nat :| j < |b| && GoesAt(b, j, w[i], Next(w, i));
    if j + 1 < |b| { assert TreeStepAt(tree, b, j); }
  }

  ghost predicate Covered(w: seq<SpecId>, r: seq<seq<SpecId>>) {
    forall i: nat | i < |w| :: MeetsAt(w, i, r)
  }

  ghost predicate ShallowestFirst(tree: Tree, w: seq<SpecId>) {
    w != [] && w[0] in tree && forall x | x in w :: x in tree && tree[w[0]].depth <= tree[x].depth
  }

  /** A covered edge that leaves a descent goes down: upwards it would hit the descent again. */
  lemma CoveredEdgeDescends(tree: Tree, r: seq<seq<SpecId>>, w: seq<SpecId>, n: nat)
    requires AllFundamental(tree, r) && Covered(w, r) && Distinct(w) && 1 < n <= |w|
    requires ShallowestFirst(tree, w) && TreePath(tree, w[..n - 1])
    ensures TreeStep(tree, w[n - 2], w[n - 1])
  {
    var p := w[..n - 1];
    assert MeetsAt(w, n - 2, r);
    var d, k := ListedEdge(tree, r, w, n - 2);
    if !TreeStep(tree, w[n - 2], w[n - 1]) {
      var b := Rotate(d, k);
      assert w[n - 1] in w;
      DepthAlong(tree, p);
      DepthAlong(tree, b);
      SameDescent(tree, p, b);
      assert false;
    }
  }

  /** A cycle read from its shallowest member descends the tree as far as its edges are covered. */
  lemma {:induction false} CoveredDescends(tree: Tree, r: seq<seq<SpecId>>, w: seq<SpecId>, n: nat)
    requires AllFundamental(tree, r) && Covered(w, r) && Distinct(w) && 0 < n <= |w|
    requires ShallowestFirst(tree, w)
    ensures TreePath(tree, w[..n])
  {
    if n > 1 {
      CoveredDescends(tree, r, w, n - 1);
      var p := w[..n - 1];
      CoveredEdgeDescends(tree, r, w, n);
      forall i: nat | i + 1 < n ensures TreeStepAt(tree, w[..n], i) {
        if i + 1 < n - 1 { assert TreeStepAt(tree, p, i); }
      }
      assert forall x | x in w[..n] :: x in w;
    }
  }

  /** Every edge of the listing's cycles has both ends in the tree. */
  lemma CoveredInTree(tree: Tree, r: seq<seq<SpecId>>, w: seq<SpecId>, x: SpecId)
    requires AllFundamental(tree, r) && Covered(w, r) && x in w
    ensures x in tree
  {
    var i: nat :| i < |w| && w[i] == x;
    assert MeetsAt(w, i, r);
    var d, k := ListedEdge(tree, r, w, i);
    var b := Rotate(d, k);
    assert b[|d| - 1] in b;
  }

  /** A simple cycle that starts at its shallowest member is a rotation of a listed one. */
  lemma CoveredIsRotation(tree: Tree, r: seq<seq<SpecId>>, w: seq<SpecId>) returns (d: seq<SpecId>, k: nat)
    requires AllFundamental(tree, r) && Covered(w, r) && Distinct(w) && w != []
    requires ShallowestFirst(tree, w)
    ensures d in r && k < |d| && w == Rotate(d, k)
  {
    var n := |w|;
    CoveredDescends(tree, r, w, n);
    assert w[..n] == w;
    DepthAlong(tree, w);
    assert MeetsAt(w, n - 1, r);
    d, k := ListedEdge(tree, r, w, n - 1);
    DepthAlong(tree, Rotate(d, k));
    SameDescent(tree, w, Rotate(d, k));
  }

  lemma {:induction false} RotationCovered(w: seq<SpecId>, m: nat, r: seq<seq<SpecId>>)
    requires Covered(w, r) && m < |w|
    ensures Covered(Rotate(w, m), r)
  {
    forall i: nat | i < |w| ensures MeetsAt(Rotate(w, m), i, r) {
      var j := RotatedAt(w, m, i);
      assert MeetsAt(w, j, r);
    }
  }

  lemma ShallowestRotation(tree: Tree, c: seq<SpecId>) returns (m: nat)
    requires c != [] && forall x | x in c :: x in tree
    ensures m < |c| && ShallowestFirst(tree, Rotate(c, m))
  {
    m := EarliestOf(c, map x | x in c :: tree[x].depth);
    forall x | x in Rotate(c, m) ensures tree[c[m]].depth <= tree[x].depth { assert x in c; }
  }

  /** Rotations of the same list are rotations of each other. */
  lemma RotationsMeet(c: seq<SpecId>, m: nat, d: seq<SpecId>, k: nat) returns (l: nat)
    requires m < |c| && k < |d| && Rotate(c, m) == Rotate(d, k)
    ensures l < |d| && c == Rotate(d, l)
  {
    var back := if m == 0 then 0 else |c| - m;
    assert |c| == |Rotate(c, m)| == |Rotate(d, k)| == |d|;
    RotateBack(c, m, back);
    assert Rotate(c, 0) == c;
    RotateBack(d, k, back);
    l := if k + back < |d| then k + back else k + back - |d|;
  }

  lemma CoveredCycleIsListed(le: IdOrder, g: Edges, r: seq<seq<SpecId>>, c: seq<SpecId>)
    requires TotalOrder(le) && Detects(le, g, r)
    requires SimpleCycle(g, c) && Canonical(le, c) && Covered(c, r)
    ensures c in r
  {
    var tree: Tree :| AllFundamental(tree, r);
    forall x | x in c ensures x in tree { CoveredInTree(tree, r, c, x); }
    var m := ShallowestRotation(tree, c);
    RotationCovered(c, m, r);
    RotationKeepsCycle(g, c, m);
    var d, k := CoveredIsRotation(tree, r, Rotate(c, m));
    var l := RotationsMeet(c, m, d, k);
    CanonicalIsUnique(le, d, l);
  }

  /** The listing names every simple cycle. */
  ghost predicate ListsEveryCycle(le: IdOrder, g: Edges, r: seq<seq<SpecId>>) {
    forall c | SimpleCycle(g, c) && Canonical(le, c) :: c in r
  }

  /** The listing touches every edge that lies on some simple cycle. */
  ghost predicate CoversEveryCyclicEdge(le: IdOrder, g: Edges, r: seq<seq<SpecId>>) {
    forall c | SimpleCycle(g, c) && Canonical(le, c) :: Covered(c, r)
  }

  lemma ListedIsCovered(r: seq<seq<SpecId>>, c: seq<SpecId>)
    requires c in r
    ensures Covered(c, r)
  {
    forall i: nat | i < |c| ensures MeetsAt(c, i, r) {
      assert GoesAt(c, i, c[i], Next(c, i));
      assert OnCycle(c, c[i], Next(c, i));
    }
  }

  /** A listing is every cycle when it reaches every edge that lies on a cycle. */
  lemma CompleteIffCovering(le: IdOrder, g: Edges, r: seq<seq<SpecId>>)
    requires TotalOrder(le) && Detects(le, g, r)
    ensures ListsEveryCycle(le, g, r) <==> CoversEveryCyclicEdge(le, g, r)
  {
    forall c | SimpleCycle(g, c) && Canonical(le, c) ensures c in r <==> Covered(c, r) {
      if c in r { ListedIsCovered(r, c); }
      if Covered(c, r) { CoveredCycleIsListed(le, g, r, c); }
    }
  }

  // Exactly when every cycle is listed: a condition on the graph.

  /** One cycle, read from different members. */
  ghost predicate SameCycle(c: seq<SpecId>, d: seq<SpecId>) {
    exists k: nat :: k < |d| && c == Rotate(d, k)
  }

  ghost predicate BothUse(g: Edges, c: seq<SpecId>, d: seq<SpecId>, u: SpecId, v: SpecId) {
    SimpleCycle(g, c) && SimpleCycle(g, d) && OnCycle(c, u, v) && OnCycle(d, u, v)
  }

  /** No edge lies on two different simple cycles. */
  ghost predicate NoEdgeOnTwoCycles(g: Edges) {
    forall c, d, u, v | BothUse(g, c, d, u, v) :: SameCycle(c, d)
  }

  lemma UnsharedIsListed(le: IdOrder, g: Edges, r: seq<seq<SpecId>>, c: seq<SpecId>)
    requires TotalOrder(le) && Detects(le, g, r) && NoEdgeOnTwoCycles(g)
    requires SimpleCycle(g, c) && Canonical(le, c)
    ensures c in r
  {
    assert Meets(c, r);
    var i: nat :| i < |c| && MeetsAt(c, i, r);
    var d :| d in r && OnCycle(d, c[i], Next(c, i));
    assert GoesAt(c, i, c[i], Next(c, i));
    assert BothUse(g, c, d, c[i], Next(c, i));
    var k: nat :| k < |d| && c == Rotate(d, k);
    CanonicalIsUnique(le, d, k);
  }

  /** The order that puts one id first and keeps the others as they are. */
  function Favouring(x: SpecId): IdOrder {
    (a: SpecId, b: SpecId) => a == x || (b != x && NameOrder()(a, b))
  }

  lemma FavouringIsTotal(x: SpecId)
    ensures TotalOrder(Favouring(x))
  {
    NameOrderTotal();
  }

  lemma DeeperThanRoot(tree: Tree, p: seq<SpecId>, i: nat)
    requires TreePath(tree, p) && 0 < i < |p|
    ensures tree[p[i]].depth > 0
  {
    assert TreeStepAt(tree, p, i - 1);
  }

  /** A listed cycle through a root is the descent from the root to where its last edge starts. */
  lemma CycleThroughRoot(tree: Tree, c: seq<SpecId>, u: SpecId, root: SpecId) returns (b: seq<SpecId>, k: nat)
    requires Fundamental(tree, c) && Distinct(c) && OnCycle(c, u, root) && root in tree && tree[root].depth == 0
    ensures k < |c| && b == Rotate(c, k) && TreePath(tree, b) && b[0] == root && b[|b| - 1] == u
  {
    k :| k < |c| && TreePath(tree, Rotate(c, k));
    b := Rotate(c, k);
    RotationKeepsEdge(c, k, u, root);
    var j: nat :| j < |b| && GoesAt(b, j, u, root);
    if j + 1 < |b| { DeeperThanRoot(tree, b, j + 1); }
  }

  lemma RotatedBack(c: seq<SpecId>, k: nat) returns (l: nat)
    requires k < |c|
    ensures l < |c| && Rotate(Rotate(c, k), l) == c
  {
    l := if k == 0 then 0 else |c| - k;
    RotateBack(c, k, l);
    assert Rotate(c, 0) == c;
  }

  lemma SameCycleChains(a: seq<SpecId>, b: seq<SpecId>, c: seq<SpecId>)
    requires SameCycle(a, b) && SameCycle(b, c)
    ensures SameCycle(a, c)
  {
    var k: nat :| k < |b| && a == Rotate(b, k);
    var l: nat :| l < |c| && b == Rotate(c, l);
    RotateBack(c, l, k);
  }

  lemma SameCycleTurns(a: seq<SpecId>, b: seq<SpecId>)
    requires SameCycle(a, b) && a != []
    ensures SameCycle(b, a)
  {
    var k: nat :| k < |b| && a == Rotate(b, k);
    var l := RotatedBack(b, k);
  }

  /** Two listed cycles that share an edge into a root are one. */
  lemma ListedThroughRootAreSame(tree: Tree, c: seq<SpecId>, d: seq<SpecId>, u: SpecId, root: SpecId)
    requires Fundamental(tree, c) && Distinct(c) && OnCycle(c, u, root)
    requires Fundamental(tree, d) && Distinct(d) && OnCycle(d, u, root)
    requires root in tree && tree[root].depth == 0
    ensures SameCycle(c, d)
  {
    var b, k := CycleThroughRoot(tree, c, u, root);
    var b', k' := CycleThroughRoot(tree, d, u, root);
    DepthAlong(tree, b);
    DepthAlong(tree, b');
    SameDescent(tree, b, b');
    assert b' == b;
    assert SameCycle(b, d);
    var l := RotatedBack(c, k);
    assert SameCycle(c, b);
    SameCycleChains(c, b, d);
  }

  lemma NormalFormOf(le: IdOrder, g: Edges, c: seq<SpecId>, u: SpecId, v: SpecId) returns (n: seq<SpecId>)
    requires TotalOrder(le) && SimpleCycle(g, c) && OnCycle(c, u, v)
    ensures SimpleCycle(g, n) && Canonical(le, n) && OnCycle(n, u, v) && SameCycle(n, c) && SameCycle(c, n)
  {
    var k := MinIndex(le, c);
    n := Normalise(le, c);
    NormaliseIsCanonical(le, c);
    RotationKeepsCycle(g, c, k);
    RotationKeepsEdge(c, k, u, v);
    assert SameCycle(n, c);
    SameCycleTurns(n, c);
  }

  /** Two cycles that share an edge: with its target first in order, one of them is not listed. */
  lemma SharedEdgeLosesOne(g: Edges, c: seq<SpecId>, d: seq<SpecId>, u: SpecId, v: SpecId, r: seq<seq<SpecId>>)
    requires BothUse(g, c, d, u, v) && !SameCycle(c, d) && Detects(Favouring(v), g, r)
    ensures !ListsEveryCycle(Favouring(v), g, r)
  {
    var le := Favouring(v);
    FavouringIsTotal(v);
    var c' := NormalFormOf(le, g, c, u, v);
    var d' := NormalFormOf(le, g, d, u, v);
    var tree: Tree :| SpanningForest(le, g, tree) && AllFundamental(tree, r);
    var i: nat :| i < |c| && GoesAt(c, i, u, v);
    assert LeadsOn(g, c, i);
    assert IsLeast(le, v, g.Keys);
    if c' in r && d' in r {
      ListedThroughRootAreSame(tree, c', d', u, v);
      SameCycleChains(c, c', d');
      SameCycleChains(c, d', d);
    }
  }

  /** "Every dependency cycle" is listed, whatever the order of the ids, if and only if no dependency
      lies on two different cycles. */
  lemma EveryCycleListedIff(g: Edges)
    ensures (forall le: IdOrder {:trigger CyclesOf(le, g)} | TotalOrder(le) :: ListsEveryCycle(le, g, CyclesOf(le, g)))
            <==> NoEdgeOnTwoCycles(g)
  {
    if NoEdgeOnTwoCycles(g) {
      forall le: IdOrder | TotalOrder(le) ensures ListsEveryCycle(le, g, CyclesOf(le, g)) {
        CyclesDetect(le, g);
        forall c | SimpleCycle(g, c) && Canonical(le, c) ensures c in CyclesOf(le, g) {
          UnsharedIsListed(le, g, CyclesOf(le, g), c);
        }
      }
    } else {
      var c, d, u, v :| BothUse(g, c, d, u, v) && !SameCycle(c, d);
      FavouringIsTotal(v);
      CyclesDetect(Favouring(v), g);
      SharedEdgeLosesOne(g, c, d, u, v, CyclesOf(Favouring(v), g));
    }
  }

  /** Three specs that all depend on each other: two triangles, one each way round. */
  const A := Name("A")
  const B := Name("B")
  const C := Name("C")
  const TRIANGLES: Edges := map[A := {B, C}, B := {A, C}, C := {A, B}]

  /** In a listed cycle of three, two of its three edges are tree edges. */
  lemma TriangleParents(tree: Tree, x: SpecId, y: SpecId, z: SpecId)
    requires Fundamental(tree, [x, y, z])
    ensures (TreeStep(tree, x, y) && TreeStep(tree, y, z)) || (TreeStep(tree, y, z) && TreeStep(tree, z, x))
            || (TreeStep(tree, z, x) && TreeStep(tree, x, y))
  {
    var c := [x, y, z];
    var k: nat :| k < 3 && TreePath(tree, Rotate(c, k));
    var p := Rotate(c, k);
    assert TreeStepAt(tree, p, 0) && TreeStepAt(tree, p, 1);
    assert p == if k == 0 then [x, y, z] else if k == 1 then [y, z, x] else [z, x, y];
  }

  lemma NoListingHasBothTriangles(r: seq<seq<SpecId>>)
    requires Detects(NameOrder(), TRIANGLES, r)
    ensures !ListsEveryCycle(NameOrder(), TRIANGLES, r)
  {
    var one, other := [A, B, C], [A, C, B];
    TriangleIsSimple(A, B, C);
    TriangleIsSimple(A, C, B);
    if one in r && other in r {
      var tree: Tree :| SpanningForest(NameOrder(), TRIANGLES, tree) && AllFundamental(tree, r);
      assert Fundamental(tree, one) && Fundamental(tree, other);
      TriangleParents(tree, A, B, C);
      TriangleParents(tree, A, C, B);
      assert false;
    }
  }

  /** The promise of every cycle fails on the two triangles, in the program's own order of ids. */
  lemma NotEveryCycleIsListed()
    ensures TotalOrder(NameOrder())
    ensures !ListsEveryCycle(NameOrder(), TRIANGLES, CyclesOf(NameOrder(), TRIANGLES))
  {
    NameOrderTotal();
    CyclesDetect(NameOrder(), TRIANGLES);
    NoListingHasBothTriangles(CyclesOf(NameOrder(), TRIANGLES));
  }

  lemma TriangleIsSimple(x: SpecId, y: SpecId, z: SpecId)
    requires (x, y, z) == (A, B, C) || (x, y, z) == (A, C, B)
    ensures SimpleCycle(TRIANGLES, [x, y, z]) && Canonical(NameOrder(), [x, y, z])
  {
    var c := [x, y, z];
    assert LeadsOn(TRIANGLES, c, 0) && LeadsOn(TRIANGLES, c, 1) && LeadsOn(TRIANGLES, c, 2);
    assert StringOrder()("A", "A") && StringOrder()("A", "B") && StringOrder()("A", "C");
    assert forall v | v in c :: NameOrder()(A, v);
  }
}
