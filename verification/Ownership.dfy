/** Who owns an artifact (`arch/registry.py`): the longest-prefix resolver and the pairwise
    disjointness check. A registry is the sequence of its nodes in the mapping's iteration order. */
module Ownership {
  import opened Basics
  import opened Ordering

  datatype SpecNode = SpecNode(id: string, ownsCode: seq<string>, ownsResources: seq<string>)

  datatype Conflict = Conflict(artifact: string, specIds: seq<string>)

  function Insert<T>(le: (T, T) -> bool, x: T, xs: seq<T>): (r: seq<T>)
    ensures multiset(r) == multiset(xs) + multiset{x}
  {
    if xs == [] || le(x, xs[0]) then [x] + xs
    else
      assert xs == [xs[0]] + xs[1..];
      [xs[0]] + Insert(le, x, xs[1..])
  }

  /** `sorted` of a list, repetitions kept. */
  function InsertionSort<T>(le: (T, T) -> bool, xs: seq<T>): (r: seq<T>)
    ensures multiset(r) == multiset(xs)
  {
    if xs == [] then []
    else
      assert xs == [xs[0]] + xs[1..];
      Insert(le, xs[0], InsertionSort(le, xs[1..]))
  }

  ghost predicate Ascending<T>(le: (T, T) -> bool, xs: seq<T>) {
    forall i, j | 0 <= i < j < |xs| :: le(xs[i], xs[j])
  }

  lemma {:induction false} InsertAscends<T(!new)>(le: (T, T) -> bool, x: T, xs: seq<T>)
    requires TotalOrder(le) && Ascending(le, xs)
    ensures Ascending(le, Insert(le, x, xs))
  {
    var r := Insert(le, x, xs);
    if xs != [] && !le(x, xs[0]) {
      InsertAscends(le, x, xs[1..]);
      forall j | 0 < j < |r| ensures le(r[0], r[j]) {
        assert r[j] in multiset(Insert(le, x, xs[1..]));
        assert r[j] == x || r[j] in xs[1..];
      }
    }
  }

  lemma {:induction false} InsertionSortAscends<T(!new)>(le: (T, T) -> bool, xs: seq<T>)
    requires TotalOrder(le)
    ensures Ascending(le, InsertionSort(le, xs)) && multiset(InsertionSort(le, xs)) == multiset(xs)
  {
    if xs != [] {
      InsertionSortAscends(le, xs[1..]);
      InsertAscends(le, xs[0], InsertionSort(le, xs[1..]));
    }
  }

  /** `tuple(sorted(ids))` */
  function SortedTuple(ids: seq<string>): seq<string> { InsertionSort(StringOrder(), ids) }

  /** `tuple(sorted((a, b)))` */
  function PairOfIds(a: string, b: string): seq<string> { if StringOrder()(a, b) then [a, b] else [b, a] }

  lemma PairSorts<T>(le: (T, T) -> bool, a: T, b: T)
    ensures InsertionSort(le, [a, b]) == if le(a, b) then [a, b] else [b, a]
  {
    assert [a, b][1..] == [b] && [b][1..] == [];
    assert InsertionSort(le, [b]) == Insert(le, b, []) == [b];
    assert Insert(le, a, []) == [a];
    assert Insert(le, a, [b]) == if le(a, b) then [a] + [b] else [b] + [a];
  }

  lemma PairIsSorted(a: string, b: string)
    ensures PairOfIds(a, b) == SortedTuple([a, b])
  {
    PairSorts(StringOrder(), a, b);
  }

  const RESOURCE_PREFIXES: seq<string> := ["db:table:", "queue:topic:", "format:"]

  predicate IsResource(artifact: string) {
    exists i | 0 <= i < |RESOURCE_PREFIXES| :: RESOURCE_PREFIXES[i] <= artifact
  }

  /** `owned.rstrip("/")` */
  function RStrip(s: string): (r: string)
    ensures r <= s && (r == "" || r[|r| - 1] != '/') && forall i | |r| <= i < |s| :: s[i] == '/'
  {
    if s != "" && s[|s| - 1] == '/' then RStrip(s[..|s| - 1]) else s
  }

  predicate PathContains(owned: string, artifact: string) {
    artifact == RStrip(owned) || RStrip(owned) + "/" <= artifact
  }

  // A path, directory by directory.

  /** `s.split("/")` */
  function Segments(s: string): (r: seq<string>)
    ensures r != []
  {
    if s == "" then [""]
    else
      var rest := Segments(s[1..]);
      if s[0] == '/' then [""] + rest else [[s[0]] + rest[0]] + rest[1..]
  }

  /** The artifact is the owned path or lies in that directory. */
  predicate Under(owned: string, artifact: string) { Segments(RStrip(owned)) <= Segments(artifact) }

  lemma SegmentsStep(c: char, s: string)
    ensures Segments([c] + s) == if c == '/' then [""] + Segments(s)
                                 else [[c] + Segments(s)[0]] + Segments(s)[1..]
  {
    assert ([c] + s)[1..] == s;
  }

  lemma {:induction false} OneEmptySegment(s: string)
    ensures Segments(s) <= [""] <==> s == ""
    ensures [""] <= Segments(s) <==> s == "" || s[0] == '/'
  {
    if s != "" { FirstSegment(s); }
  }

  lemma SamePrefix<T>(h: T, x: seq<T>, y: seq<T>)
    ensures [h] + x <= [h] + y <==> x <= y
  {
    assert ([h] + x)[1..] == x && ([h] + y)[1..] == y;
  }

  lemma SameStart(c: char, x: seq<string>, y: seq<string>)
    requires x != [] && y != []
    ensures [[c] + x[0]] + x[1..] <= [[c] + y[0]] + y[1..] <==> x <= y
  {
    assert x == [x[0]] + x[1..] && y == [y[0]] + y[1..];
    assert ([c] + x[0])[1..] == x[0] && ([c] + y[0])[1..] == y[0];
    var p, q := [[c] + x[0]] + x[1..], [[c] + y[0]] + y[1..];
    if x[0] == y[0] {
      SamePrefix(x[0], x[1..], y[1..]);
      SamePrefix([c] + x[0], x[1..], y[1..]);
    } else {
      assert p[0] != q[0];
    }
  }

  lemma PrefixByHead(c: char, b: string, a: string)
    ensures Segments([c] + b) <= Segments([c] + a) <==> Segments(b) <= Segments(a)
  {
    SegmentsStep(c, b);
    SegmentsStep(c, a);
    SamePrefix("", Segments(b), Segments(a));
    SameStart(c, Segments(b), Segments(a));
  }

  lemma FirstSegment(s: string)
    requires s != ""
    ensures if s[0] == '/' then Segments(s)[0] == "" else Segments(s)[0] != "" && Segments(s)[0][0] == s[0]
  {
    assert Segments(s)[0] == if s[0] == '/' then "" else [s[0]] + Segments(s[1..])[0];
  }

  lemma HeadsDiffer(b: string, a: string)
    requires b != "" && a != "" && a[0] != b[0]
    ensures !(Segments(b) <= Segments(a))
  {
    FirstSegment(b);
    FirstSegment(a);
    assert Segments(b)[0] != Segments(a)[0];
  }

  lemma {:induction false} AncestorIff(b: string, a: string)
    ensures a == b || b + "/" <= a <==> Segments(b) <= Segments(a)
  {
    if b == "" {
      OneEmptySegment(a);
    } else if a == "" {
      OneEmptySegment(b);
    } else if a[0] != b[0] {
      HeadsDiffer(b, a);
    } else {
      AncestorIff(b[1..], a[1..]);
      PrefixByHead(b[0], b[1..], a[1..]);
      assert b == [b[0]] + b[1..] && a == [b[0]] + a[1..];
      assert b + "/" == [b[0]] + (b[1..] + "/");
    }
  }

  /** The two string tests mean a whole directory: no path owns its siblings that merely begin alike. */
  lemma PathContainsIff(owned: string, artifact: string)
    ensures PathContains(owned, artifact) <==> Under(owned, artifact)
  {
    AncestorIff(RStrip(owned), artifact);
  }

  lemma RStripTwice(s: string)
    ensures RStrip(RStrip(s)) == RStrip(s)
  {
  }

  /** Two owned paths holding one artifact: one of them holds the other. */
  lemma ContainersAreComparable(one: string, other: string, artifact: string)
    requires Under(one, artifact) && Under(other, artifact)
    ensures Under(RStrip(one), RStrip(other)) || Under(RStrip(other), RStrip(one))
  {
    RStripTwice(one);
    RStripTwice(other);
    var a, b, whole := Segments(RStrip(one)), Segments(RStrip(other)), Segments(artifact);
    assert a == whole[..|a|] && b == whole[..|b|];
  }

  // Resolution.

  /** The `j`-th path of the `i`-th node holds the artifact. */
  predicate Holds(nodes: seq<SpecNode>, i: nat, j: nat, artifact: string) {
    i < |nodes| && j < |nodes[i].ownsCode| && Under(nodes[i].ownsCode[j], artifact)
  }

  function BaseLength(nodes: seq<SpecNode>, i: nat, j: nat): nat
    requires i < |nodes| && j < |nodes[i].ownsCode|
  {
    |RStrip(nodes[i].ownsCode[j])|
  }

  predicate Before(i: nat, j: nat, i': nat, j': nat) {
    i < i' || (i == i' && j < j')
  }

  lemma NextPosition(i: nat, j: nat)
    ensures forall i': nat, j': nat ::
              Before(i', j', i, j + 1) <==> Before(i', j', i, j) || (i' == i && j' == j)
  {
    forall i': nat, j': nat
      ensures Before(i', j', i, j + 1) <==> Before(i', j', i, j) || (i' == i && j' == j)
    {
    }
  }

  /** Among the paths up to (but not including) position `(n, m)`: a longest one holding the
      artifact, the first of its length. */
  ghost predicate FirstLongest(nodes: seq<SpecNode>, artifact: string, n: nat, m: nat, i: nat, j: nat) {
    && Holds(nodes, i, j, artifact) && Before(i, j, n, m)
    && forall i', j' | Holds(nodes, i', j', artifact) && Before(i', j', n, m) ::
         && BaseLength(nodes, i', j') <= BaseLength(nodes, i, j)
         && (Before(i', j', i, j) ==> BaseLength(nodes, i', j') < BaseLength(nodes, i, j))
  }

  ghost predicate OwnsPath(node: SpecNode, artifact: string) {
    exists owned :: owned in node.ownsCode && Under(owned, artifact)
  }

  /** The artifact is a resource key, not a path. */
  predicate NamesResource(artifact: string) {
    "db:table:" <= artifact || "queue:topic:" <= artifact || "format:" <= artifact
  }

  lemma IsResourceIff(artifact: string)
    ensures IsResource(artifact) <==> NamesResource(artifact)
  {
    if "db:table:" <= artifact { assert RESOURCE_PREFIXES[0] <= artifact; }
    if "queue:topic:" <= artifact { assert RESOURCE_PREFIXES[1] <= artifact; }
    if "format:" <= artifact { assert RESOURCE_PREFIXES[2] <= artifact; }
  }

  ghost predicate Owns(node: SpecNode, artifact: string) {
    if NamesResource(artifact) then artifact in node.ownsResources else OwnsPath(node, artifact)
  }

  /** What `owner_of` answers: the first owner of a resource, the owner of the first longest
      path for anything else, nobody only when nobody owns it. */
  ghost predicate Resolves(nodes: seq<SpecNode>, artifact: string, r: Option<string>) {
    if NamesResource(artifact) then
      match r
      case None => forall n | n in nodes :: artifact !in n.ownsResources
      case Some(id) => exists i: nat :: i < |nodes| && FirstOwner(nodes, artifact, i) && nodes[i].id == id
    else
      match r
      case None => forall i: nat, j: nat :: !Holds(nodes, i, j, artifact)
      case Some(id) => exists i: nat, j: nat ::
        FirstLongest(nodes, artifact, |nodes|, 0, i, j) && nodes[i].id == id
  }

  ghost predicate FirstOwner(nodes: seq<SpecNode>, resource: string, i: nat)
    requires i < |nodes|
  {
    resource in nodes[i].ownsResources && forall k | 0 <= k < i :: resource !in nodes[k].ownsResources
  }

  method OwnerOf(nodes: seq<SpecNode>, artifact: string) returns (r: Option<string>)
    ensures Resolves(nodes, artifact, r)
  {
    IsResourceIff(artifact);
    if IsResource(artifact) {
      for i := 0 to |nodes|
        invariant forall k | 0 <= k < i :: artifact !in nodes[k].ownsResources
      {
        if artifact in nodes[i].ownsResources {
          assert FirstOwner(nodes, artifact, i);
          return Some(nodes[i].id);
        }
      }
      return None;
    }
    var bestId: Option<string> := None;
    var bestLen := -1;
    ghost var bi: nat, bj: nat := 0, 0;
    for i := 0 to |nodes|
      invariant bestId.None? ==>
          bestLen == -1 &&
          forall i': nat, j': nat | Before(i', j', i, 0) :: !Holds(nodes, i', j', artifact)
      invariant bestId.Some? ==>
          FirstLongest(nodes, artifact, i, 0, bi, bj) &&
          bestLen == BaseLength(nodes, bi, bj) && bestId.value == nodes[bi].id
    {
      for j := 0 to |nodes[i].ownsCode|
        invariant bestId.None? ==>
            bestLen == -1 &&
            forall i': nat, j': nat | Before(i', j', i, j) :: !Holds(nodes, i', j', artifact)
        invariant bestId.Some? ==>
            FirstLongest(nodes, artifact, i, j, bi, bj) &&
            bestLen == BaseLength(nodes, bi, bj) && bestId.value == nodes[bi].id
      {
        var owned := nodes[i].ownsCode[j];
        var base := RStrip(owned);
        PathContainsIff(owned, artifact);
        assert Holds(nodes, i, j, artifact) <==> PathContains(owned, artifact);
        NextPosition(i, j);
        if PathContains(owned, artifact) && |base| > bestLen {
          bestId, bestLen := Some(nodes[i].id), |base|;
          bi, bj := i, j;
        }
      }
      assert forall i': nat, j': nat | Holds(nodes, i', j', artifact) ::
          Before(i', j', i + 1, 0) <==> Before(i', j', i, |nodes[i].ownsCode|);
    }
    r := bestId;
  }

  lemma ResolvedOwns(nodes: seq<SpecNode>, artifact: string, r: Option<string>)
    requires Resolves(nodes, artifact, r)
    ensures r.None? ==> forall n | n in nodes :: !Owns(n, artifact)
    ensures r.Some? ==> exists n :: n in nodes && n.id == r.value && Owns(n, artifact)
  {
    if NamesResource(artifact) {
      if r.Some? {
        var i: nat :| i < |nodes| && FirstOwner(nodes, artifact, i) && nodes[i].id == r.value;
        assert nodes[i] in nodes && Owns(nodes[i], artifact);
      }
    } else if r.Some? {
      var i: nat, j: nat :| FirstLongest(nodes, artifact, |nodes|, 0, i, j) && nodes[i].id == r.value;
      assert nodes[i].ownsCode[j] in nodes[i].ownsCode;
      assert nodes[i] in nodes && Owns(nodes[i], artifact);
    } else {
      forall n | n in nodes ensures !OwnsPath(n, artifact) {
        var i: nat :| i < |nodes| && nodes[i] == n;
        forall owned | owned in n.ownsCode ensures !Under(owned, artifact) {
          var j: nat :| j < |n.ownsCode| && n.ownsCode[j] == owned;
          assert !Holds(nodes, i, j, artifact);
        }
      }
    }
  }

  /** Of the paths that hold the artifact, the owner's is the deepest: every other one holds that path. */
  lemma ResolvedIsDeepest(nodes: seq<SpecNode>, artifact: string, r: Option<string>)
    requires !NamesResource(artifact) && Resolves(nodes, artifact, r) && r.Some?
    ensures exists n, owned :: n in nodes && n.id == r.value && owned in n.ownsCode && IsDeepest(nodes, artifact, owned)
  {
    var i: nat, j: nat :| FirstLongest(nodes, artifact, |nodes|, 0, i, j) && nodes[i].id == r.value;
    var owned := nodes[i].ownsCode[j];
    forall m, other | m in nodes && other in m.ownsCode && Under(other, artifact) ensures Under(other, RStrip(owned)) {
      var i': nat :| i' < |nodes| && nodes[i'] == m;
      var j': nat :| j' < |m.ownsCode| && m.ownsCode[j'] == other;
      assert Holds(nodes, i', j', artifact);
      LongerIsDeeper(other, owned, artifact);
    }
    assert nodes[i] in nodes && owned in nodes[i].ownsCode && IsDeepest(nodes, artifact, owned);
  }

  ghost predicate IsDeepest(nodes: seq<SpecNode>, artifact: string, owned: string) {
    Under(owned, artifact)
    && forall m, other | m in nodes && other in m.ownsCode && Under(other, artifact) :: Under(other, RStrip(owned))
  }

  lemma LongerIsDeeper(shorter: string, longer: string, artifact: string)
    requires Under(shorter, artifact) && Under(longer, artifact) && |RStrip(shorter)| <= |RStrip(longer)|
    ensures Under(shorter, RStrip(longer))
  {
    var a, b := RStrip(shorter), RStrip(longer);
    ContainersAreComparable(shorter, longer, artifact);
    RStripTwice(shorter);
    RStripTwice(longer);
    PathContainsIff(longer, a);
    if PathContains(longer, a) { assert b <= a; }
  }

  // Disjointness.

  datatype Claim = Claim(id: string, resource: string)

  function ClaimsOf(node: SpecNode): seq<Claim> {
    seq(|node.ownsResources|,
        i requires 0 <= i < |node.ownsResources| => Claim(node.id, node.ownsResources[i]))
  }

  function Claims(nodes: seq<SpecNode>): seq<Claim> {
    if nodes == [] then [] else Claims(nodes[..|nodes| - 1]) + ClaimsOf(nodes[|nodes| - 1])
  }

  /** The ids claiming one resource, in order. */
  function OwnersIn(claims: seq<Claim>, resource: string): seq<string> {
    if claims == [] then []
    else
      var last := claims[|claims| - 1];
      OwnersIn(claims[..|claims| - 1], resource) + if last.resource == resource then [last.id] else []
  }

  datatype OwnedPath = OwnedPath(id: string, path: string)

  function PathsOf(node: SpecNode): seq<OwnedPath> {
    seq(|node.ownsCode|, i requires 0 <= i < |node.ownsCode| => OwnedPath(node.id, RStrip(node.ownsCode[i])))
  }

  function OwnedPaths(nodes: seq<SpecNode>): seq<OwnedPath> {
    if nodes == [] then [] else OwnedPaths(nodes[..|nodes| - 1]) + PathsOf(nodes[|nodes| - 1])
  }

  /** `resource_owners` after some claims were appended to it. */
  ghost predicate Groups(owners: map<string, seq<string>>, claims: seq<Claim>) {
    && (forall r :: r in owners <==> OwnersIn(claims, r) != [])
    && (forall r | r in owners :: owners[r] == OwnersIn(claims, r))
  }

  lemma GroupsGrow(owners: map<string, seq<string>>, claims: seq<Claim>, claim: Claim)
    requires Groups(owners, claims)
    ensures Groups(owners[claim.resource := Listed(owners, claim.resource) + [claim.id]], claims + [claim])
  {
    var after := claims + [claim];
    assert after[..|after| - 1] == claims;
  }

  /** `resource_owners.setdefault(resource, [])` */
  function Listed(owners: map<string, seq<string>>, resource: string): seq<string> {
    if resource in owners then owners[resource] else []
  }

  method GroupByResource(nodes: seq<SpecNode>) returns (owners: map<string, seq<string>>)
    ensures Groups(owners, Claims(nodes))
  {
    owners := map[];
    for i := 0 to |nodes|
      invariant Groups(owners, Claims(nodes[..i]))
    {
      var node := nodes[i];
      assert Claims(nodes[..i]) + ClaimsOf(node)[..0] == Claims(nodes[..i]);
      for j := 0 to |node.ownsResources|
        invariant Groups(owners, Claims(nodes[..i]) + ClaimsOf(node)[..j])
      {
        var resource := node.ownsResources[j];
        GroupsGrow(owners, Claims(nodes[..i]) + ClaimsOf(node)[..j], Claim(node.id, resource));
        TakeOneMore(Claims(nodes[..i]), ClaimsOf(node), j);
        owners := owners[resource := Listed(owners, resource) + [node.id]];
      }
      TakeAll(ClaimsOf(node));
      TakeOneMore([], nodes, i);
    }
    TakeAll(nodes);
  }

  method CollectPaths(nodes: seq<SpecNode>) returns (paths: seq<OwnedPath>)
    ensures paths == OwnedPaths(nodes)
  {
    paths := [];
    for i := 0 to |nodes|
      invariant paths == OwnedPaths(nodes[..i])
    {
      for j := 0 to |nodes[i].ownsCode|
        invariant paths == OwnedPaths(nodes[..i]) + PathsOf(nodes[i])[..j]
      {
        paths := paths + [OwnedPath(nodes[i].id, RStrip(nodes[i].ownsCode[j]))];
      }
      TakeAll(PathsOf(nodes[i]));
      TakeOneMore([], nodes, i);
    }
    TakeAll(nodes);
  }

  function SortedStrings(keys: set<string>): (r: seq<string>)
    ensures forall x :: x in r <==> x in keys
  {
    StringOrderTotal();
    Sorted(StringOrder(), keys)
  }

  function PairConflict(a: OwnedPath, b: OwnedPath): seq<Conflict> {
    if a.id == b.id then []
    else if PathContains(a.path, b.path) || PathContains(b.path, a.path) then
      [Conflict(if |a.path| >= |b.path| then a.path else b.path, PairOfIds(a.id, b.id))]
    else []
  }

  /** What a comparison reports for one element against those after it, up to `n`. */
  function Row<T, C>(compare: (T, T) -> seq<C>, xs: seq<T>, outer: nat, n: nat): seq<C>
    requires outer < n <= |xs|
  {
    if n == outer + 1 then [] else Row(compare, xs, outer, n - 1) + compare(xs[outer], xs[n - 1])
  }

  /** What it reports for every pair whose first element is among the first `n`. */
  function Pairwise<T, C>(compare: (T, T) -> seq<C>, xs: seq<T>, n: nat): seq<C>
    requires n <= |xs|
  {
    if n == 0 then [] else Pairwise(compare, xs, n - 1) + Row(compare, xs, n - 1, |xs|)
  }

  function PathConflicts(paths: seq<OwnedPath>): seq<Conflict> {
    Pairwise(PairConflict, paths, |paths|)
  }

  function ResourceConflicts(resources: seq<string>, claims: seq<Claim>): seq<Conflict> {
    if resources == [] then []
    else
      var r := resources[|resources| - 1];
      ResourceConflicts(resources[..|resources| - 1], claims)
      + if |OwnersIn(claims, r)| > 1 then [Conflict(r, SortedTuple(OwnersIn(claims, r)))] else []
  }

  function Resources(nodes: seq<SpecNode>): seq<string> {
    SortedStrings(set c | c in Claims(nodes) :: c.resource)
  }

  lemma RowGrows<T, C>(compare: (T, T) -> seq<C>, xs: seq<T>, outer: nat, inner: nat)
    requires outer < inner < |xs|
    ensures Row(compare, xs, outer, inner + 1) == Row(compare, xs, outer, inner) + compare(xs[outer], xs[inner])
  {
  }

  /** The two nested loops, over what they do with one pair. */
  method ComparePairs<T, C>(compare: (T, T) -> seq<C>, xs: seq<T>) returns (reports: seq<C>)
    ensures reports == Pairwise(compare, xs, |xs|)
  {
    reports := [];
    for outer := 0 to |xs|
      invariant reports == Pairwise(compare, xs, outer)
    {
      for inner := outer + 1 to |xs|
        invariant reports == Pairwise(compare, xs, outer) + Row(compare, xs, outer, inner)
      {
        RowGrows(compare, xs, outer, inner);
        Assoc(Pairwise(compare, xs, outer), Row(compare, xs, outer, inner), compare(xs[outer], xs[inner]));
        reports := reports + compare(xs[outer], xs[inner]);
      }
    }
  }

  /** First the resources claimed more than once, in order; then the overlapping pairs of paths. */
  method DisjointnessViolations(nodes: seq<SpecNode>) returns (conflicts: seq<Conflict>)
    ensures conflicts == Report(nodes)
  {
    var owners := GroupByResource(nodes);
    ClaimedResources(nodes, owners);
    var resources := SortedStrings(owners.Keys);
    conflicts := [];
    for i := 0 to |resources|
      invariant conflicts == ResourceConflicts(resources[..i], Claims(nodes))
    {
      assert resources[i] in resources;
      TakeOneMore([], resources, i);
      if |owners[resources[i]]| > 1 {
        conflicts := conflicts + [Conflict(resources[i], SortedTuple(owners[resources[i]]))];
      }
    }
    TakeAll(resources);
    var paths := CollectPaths(nodes);
    var more := ComparePairs(PairConflict, paths);
    conflicts := conflicts + more;
  }

  lemma {:induction false} ClaimedIffOwned(claims: seq<Claim>, r: string)
    ensures OwnersIn(claims, r) != [] <==> exists c :: c in claims && c.resource == r
  {
    if claims != [] {
      var front, last := claims[..|claims| - 1], claims[|claims| - 1];
      ClaimedIffOwned(front, r);
      assert claims == front + [last];
    }
  }

  lemma ClaimedResources(nodes: seq<SpecNode>, owners: map<string, seq<string>>)
    requires Groups(owners, Claims(nodes))
    ensures owners.Keys == set c | c in Claims(nodes) :: c.resource
  {
    forall r ensures r in owners <==> r in set c | c in Claims(nodes) :: c.resource {
      ClaimedIffOwned(Claims(nodes), r);
    }
  }

  // What an empty report means.

  /** Every report comes from a pair, earlier element first. */
  lemma {:induction false} RowReports<T, C>(compare: (T, T) -> seq<C>, xs: seq<T>, outer: nat, n: nat, c: C)
      returns (j: nat)
    requires outer < n <= |xs| && c in Row(compare, xs, outer, n)
    ensures outer < j < n && c in compare(xs[outer], xs[j])
  {
    if c in compare(xs[outer], xs[n - 1]) && n > outer + 1 {
      j := n - 1;
    } else {
      j := RowReports(compare, xs, outer, n - 1, c);
    }
  }

  lemma {:induction false} PairwiseReports<T, C>(compare: (T, T) -> seq<C>, xs: seq<T>, n: nat, c: C)
      returns (i: nat, j: nat)
    requires n <= |xs| && c in Pairwise(compare, xs, n)
    ensures i < n && i < j < |xs| && c in compare(xs[i], xs[j])
  {
    if c in Row(compare, xs, n - 1, |xs|) {
      i := n - 1;
      j := RowReports(compare, xs, i, |xs|, c);
    } else {
      i, j := PairwiseReports(compare, xs, n - 1, c);
    }
  }

  /** And every pair is compared. */
  lemma {:induction false} RowCompares<T, C>(compare: (T, T) -> seq<C>, xs: seq<T>, outer: nat, n: nat, j: nat, c: C)
    requires outer < j < n <= |xs| && c in compare(xs[outer], xs[j])
    ensures c in Row(compare, xs, outer, n)
  {
    if j < n - 1 { RowCompares(compare, xs, outer, n - 1, j, c); }
  }

  lemma {:induction false} PairwiseCompares<T, C>(compare: (T, T) -> seq<C>, xs: seq<T>, n: nat, i: nat, j: nat, c: C)
    requires i < n <= |xs| && i < j < |xs| && c in compare(xs[i], xs[j])
    ensures c in Pairwise(compare, xs, n)
  {
    var before, row := Pairwise(compare, xs, n - 1), Row(compare, xs, n - 1, |xs|);
    if i < n - 1 {
      PairwiseCompares(compare, xs, n - 1, i, j, c);
    } else {
      RowCompares(compare, xs, i, |xs|, j, c);
    }
    assert c in before || c in row;
    assert Pairwise(compare, xs, n) == before + row;
  }

  /** One of the node's own paths, stripped. */
  ghost predicate IsPathOf(n: SpecNode, p: OwnedPath) {
    exists owned :: owned in n.ownsCode && p == OwnedPath(n.id, RStrip(owned))
  }

  lemma PathOfNode(n: SpecNode, p: OwnedPath)
    ensures p in PathsOf(n) <==> IsPathOf(n, p)
  {
    if p in PathsOf(n) {
      var i: nat :| i < |n.ownsCode| && PathsOf(n)[i] == p;
      assert n.ownsCode[i] in n.ownsCode;
    }
    if IsPathOf(n, p) {
      var owned :| owned in n.ownsCode && p == OwnedPath(n.id, RStrip(owned));
      var i: nat :| i < |n.ownsCode| && n.ownsCode[i] == owned;
      assert PathsOf(n)[i] == p;
    }
  }

  lemma {:induction false} PathListed(nodes: seq<SpecNode>, p: OwnedPath)
    ensures p in OwnedPaths(nodes) <==> exists n :: n in nodes && IsPathOf(n, p)
  {
    if nodes != [] {
      var front, last := nodes[..|nodes| - 1], nodes[|nodes| - 1];
      PathListed(front, p);
      PathOfNode(last, p);
      assert nodes == front + [last];
    }
  }

  /** Two overlapping entries are reported, whichever comes first. */
  lemma OverlapIsReported(paths: seq<OwnedPath>, a: OwnedPath, b: OwnedPath)
    requires a in paths && b in paths && PairConflict(a, b) != []
    ensures PairConflict(b, a) != []
    ensures PairConflict(a, b)[0] in PathConflicts(paths) || PairConflict(b, a)[0] in PathConflicts(paths)
  {
    var i: nat :| i < |paths| && paths[i] == a;
    var j: nat :| j < |paths| && paths[j] == b;
    if i < j {
      PairwiseCompares(PairConflict, paths, |paths|, i, j, PairConflict(a, b)[0]);
    } else {
      PairwiseCompares(PairConflict, paths, |paths|, j, i, PairConflict(b, a)[0]);
    }
  }

  ghost predicate SharedBy(c: Conflict, m: SpecNode, n: SpecNode) {
    m.id != n.id && c.specIds == PairOfIds(m.id, n.id) && OwnsPath(m, c.artifact) && OwnsPath(n, c.artifact)
  }

  /** What a pair of overlapping entries of two specs is reported as. */
  lemma PairIsShared(m: SpecNode, n: SpecNode, one: string, other: string, c: Conflict)
    requires one in m.ownsCode && other in n.ownsCode
    requires c in PairConflict(OwnedPath(m.id, RStrip(one)), OwnedPath(n.id, RStrip(other)))
    ensures SharedBy(c, m, n) && SharedBy(c, n, m)
  {
    OverlapIsShared(one, other);
    StringOrderTotal();
  }

  /** Two specs that own a common path are reported together, with such a path. */
  lemma SharedPathIsReported(nodes: seq<SpecNode>, m: SpecNode, n: SpecNode, a: string)
    requires m in nodes && n in nodes && m.id != n.id && OwnsPath(m, a) && OwnsPath(n, a)
    ensures exists c :: c in PathConflicts(OwnedPaths(nodes)) && SharedBy(c, m, n)
  {
    var one :| one in m.ownsCode && Under(one, a);
    var other :| other in n.ownsCode && Under(other, a);
    ContainersAreComparable(one, other, a);
    PathContainsIff(RStrip(one), RStrip(other));
    PathContainsIff(RStrip(other), RStrip(one));
    var p, q := OwnedPath(m.id, RStrip(one)), OwnedPath(n.id, RStrip(other));
    assert IsPathOf(m, p) && IsPathOf(n, q);
    PathListed(nodes, p);
    PathListed(nodes, q);
    OverlapIsReported(OwnedPaths(nodes), p, q);
    PairIsShared(m, n, one, other, PairConflict(p, q)[0]);
    PairIsShared(n, m, other, one, PairConflict(q, p)[0]);
  }

  /** A reported path lies under paths of both specs named. */
  lemma ReportedPathIsShared(nodes: seq<SpecNode>, c: Conflict)
    requires c in PathConflicts(OwnedPaths(nodes))
    ensures exists m, n :: m in nodes && n in nodes && SharedBy(c, m, n)
  {
    var paths := OwnedPaths(nodes);
    var i, j := PairwiseReports(PairConflict, paths, |paths|, c);
    PathListed(nodes, paths[i]);
    PathListed(nodes, paths[j]);
    var m :| m in nodes && IsPathOf(m, paths[i]);
    var n :| n in nodes && IsPathOf(n, paths[j]);
    var one :| one in m.ownsCode && paths[i] == OwnedPath(m.id, RStrip(one));
    var other :| other in n.ownsCode && paths[j] == OwnedPath(n.id, RStrip(other));
    PairIsShared(m, n, one, other, c);
  }

  /** The longer of two overlapping paths lies under both. */
  lemma OverlapIsShared(one: string, other: string)
    requires PathContains(RStrip(one), RStrip(other)) || PathContains(RStrip(other), RStrip(one))
    ensures var deeper := if |RStrip(one)| >= |RStrip(other)| then RStrip(one) else RStrip(other);
            Under(one, deeper) && Under(other, deeper)
  {
    var a, b := RStrip(one), RStrip(other);
    RStripTwice(one);
    RStripTwice(other);
    assert PathContains(a, b) ==> a <= b;
    assert PathContains(b, a) ==> b <= a;
    PathContainsIff(one, b);
    PathContainsIff(other, a);
  }

  function Listings(n: SpecNode, r: string): nat { multiset(n.ownsResources)[r] }

  /** How often a resource is listed over all specs. */
  function TimesListed(nodes: seq<SpecNode>, r: string): nat {
    if nodes == [] then 0 else TimesListed(nodes[..|nodes| - 1], r) + Listings(nodes[|nodes| - 1], r)
  }

  lemma {:induction false} OwnersConcatenate(a: seq<Claim>, b: seq<Claim>, r: string)
    ensures OwnersIn(a + b, r) == OwnersIn(a, r) + OwnersIn(b, r)
  {
    if b == [] {
      assert a + b == a;
    } else {
      var front := b[..|b| - 1];
      assert (a + b)[..|a + b| - 1] == a + front;
      OwnersConcatenate(a, front, r);
    }
  }

  lemma {:induction false} OwnersOfNode(n: SpecNode, k: nat, r: string)
    requires k <= |n.ownsResources|
    ensures |OwnersIn(ClaimsOf(n)[..k], r)| == multiset(n.ownsResources[..k])[r]
  {
    if k > 0 {
      OwnersOfNode(n, k - 1, r);
      TakeOneMore([], ClaimsOf(n), k - 1);
      assert n.ownsResources[..k] == n.ownsResources[..k - 1] + [n.ownsResources[k - 1]];
    }
  }

  lemma {:induction false} OwnersAreListings(nodes: seq<SpecNode>, r: string)
    ensures |OwnersIn(Claims(nodes), r)| == TimesListed(nodes, r)
  {
    if nodes != [] {
      var front, last := nodes[..|nodes| - 1], nodes[|nodes| - 1];
      OwnersAreListings(front, r);
      OwnersConcatenate(Claims(front), ClaimsOf(last), r);
      OwnersOfNode(last, |last.ownsResources|, r);
      TakeAll(ClaimsOf(last));
      TakeAll(last.ownsResources);
    }
  }

  /** At most one spec lists the resource, and at most once. */
  ghost predicate ListedOnce(nodes: seq<SpecNode>, r: string) {
    && (forall i | 0 <= i < |nodes| :: Listings(nodes[i], r) <= 1)
    && (forall i, j | 0 <= i < j < |nodes| :: Listings(nodes[i], r) == 0 || Listings(nodes[j], r) == 0)
  }

  lemma ListedOnceSplits(front: seq<SpecNode>, last: SpecNode, r: string)
    ensures ListedOnce(front + [last], r) <==>
            && ListedOnce(front, r) && Listings(last, r) <= 1
            && (Listings(last, r) == 0 || forall i | 0 <= i < |front| :: Listings(front[i], r) == 0)
  {
    var nodes := front + [last];
    assert nodes[|front|] == last;
    if ListedOnce(nodes, r) {
      forall i | 0 <= i < |front| ensures nodes[i] == front[i] {}
      assert forall i | 0 <= i < |front| :: Listings(nodes[i], r) == 0 || Listings(nodes[|front|], r) == 0;
      forall i | 0 <= i < |front| ensures Listings(front[i], r) <= 1 { assert front[i] == nodes[i]; }
      forall i, j | 0 <= i < j < |front| ensures Listings(front[i], r) == 0 || Listings(front[j], r) == 0 {
        assert front[i] == nodes[i] && front[j] == nodes[j];
      }
    }
  }

  lemma {:induction false} ListedSomewhere(nodes: seq<SpecNode>, r: string)
    ensures TimesListed(nodes, r) == 0 <==> forall i | 0 <= i < |nodes| :: Listings(nodes[i], r) == 0
  {
    if nodes != [] {
      var front := nodes[..|nodes| - 1];
      ListedSomewhere(front, r);
      if TimesListed(nodes, r) == 0 {
        forall i | 0 <= i < |nodes| ensures Listings(nodes[i], r) == 0 {
          if i < |front| { assert nodes[i] == front[i]; }
        }
      }
    }
  }

  lemma {:induction false} ListedOnceIff(nodes: seq<SpecNode>, r: string)
    ensures TimesListed(nodes, r) <= 1 <==> ListedOnce(nodes, r)
  {
    if nodes != [] {
      var front, last := nodes[..|nodes| - 1], nodes[|nodes| - 1];
      ListedOnceIff(front, r);
      ListedSomewhere(front, r);
      ListedOnceSplits(front, last, r);
      assert nodes == front + [last];
    }
  }

  lemma {:induction false} ResourceReported(resources: seq<string>, claims: seq<Claim>)
    ensures ResourceConflicts(resources, claims) == [] <==>
            forall r | r in resources :: |OwnersIn(claims, r)| <= 1
  {
    if resources != [] {
      var front, last := resources[..|resources| - 1], resources[|resources| - 1];
      ResourceReported(front, claims);
      assert resources == front + [last];
      assert forall r :: r in resources <==> r in front || r == last;
      assert |ResourceConflicts(resources, claims)|
          == |ResourceConflicts(front, claims)| + if |OwnersIn(claims, last)| > 1 then 1 else 0;
    }
  }

  // What is reported of a resource.

  /** How often the specs of this id list the resource. */
  function ListedBy(nodes: seq<SpecNode>, r: string, id: string): nat {
    if nodes == [] then 0
    else
      var last := nodes[|nodes| - 1];
      ListedBy(nodes[..|nodes| - 1], r, id) + if last.id == id then Listings(last, r) else 0
  }

  lemma OneElementMore<T>(xs: seq<T>, x: T, y: T)
    ensures multiset(xs + [x])[y] == multiset(xs)[y] + if x == y then 1 else 0
  {
  }

  lemma OneClaimMore(claims: seq<Claim>, last: Claim, r: string, id: string)
    ensures multiset(OwnersIn(claims + [last], r))[id]
         == multiset(OwnersIn(claims, r))[id] + if last.resource == r && last.id == id then 1 else 0
  {
    assert (claims + [last])[..|claims|] == claims;
  }

  lemma {:induction false} NodeClaimsItself(owner: string, rs: seq<string>, claims: seq<Claim>, r: string, id: string)
    requires |claims| == |rs| && forall i | 0 <= i < |rs| :: claims[i] == Claim(owner, rs[i])
    ensures multiset(OwnersIn(claims, r))[id] == if owner == id then multiset(rs)[r] else 0
  {
    if rs != [] {
      var last := |rs| - 1;
      var one, claim := rs[last], Claim(owner, rs[last]);
      NodeClaimsItself(owner, rs[..last], claims[..last], r, id);
      OneClaimMore(claims[..last], claim, r, id);
      OneElementMore(rs[..last], one, r);
      assert rs[..last] + [one] == rs;
      assert claims[..last] + [claim] == claims;
    }
  }

  lemma {:induction false} OwnersAreTheListing(nodes: seq<SpecNode>, r: string, id: string)
    ensures multiset(OwnersIn(Claims(nodes), r))[id] == ListedBy(nodes, r, id)
  {
    if nodes != [] {
      var front, last := nodes[..|nodes| - 1], nodes[|nodes| - 1];
      OwnersAreTheListing(front, r, id);
      OwnersConcatenate(Claims(front), ClaimsOf(last), r);
      NodeClaimsItself(last.id, last.ownsResources, ClaimsOf(last), r, id);
    }
  }

  lemma OneFirst<T>(xs: seq<T>)
    requires xs != []
    ensures multiset(xs[1..]) == multiset(xs) - multiset{xs[0]}
  {
    assert xs == [xs[0]] + xs[1..];
  }

  lemma {:induction false} AscendingIsUnique<T(!new)>(le: (T, T) -> bool, xs: seq<T>, ys: seq<T>)
    requires TotalOrder(le) && Ascending(le, xs) && Ascending(le, ys) && multiset(xs) == multiset(ys)
    ensures xs == ys
  {
    assert |xs| == |multiset(xs)| == |multiset(ys)| == |ys|;
    if xs != [] {
      assert xs[0] in multiset(ys) && ys[0] in multiset(xs);
      assert xs[0] == ys[0];
      assert xs == [xs[0]] + xs[1..] && ys == [ys[0]] + ys[1..];
      OneFirst(xs);
      OneFirst(ys);
      AscendingIsUnique(le, xs[1..], ys[1..]);
    }
  }

  /** The resource is listed more than once; its conflict names every lister as often, in order. */
  ghost predicate IsRivalry(nodes: seq<SpecNode>, c: Conflict) {
    && TimesListed(nodes, c.artifact) > 1 && Ascending(StringOrder(), c.specIds)
    && forall id :: multiset(c.specIds)[id] == ListedBy(nodes, c.artifact, id)
  }

  lemma {:induction false} ConflictOfResource(resources: seq<string>, claims: seq<Claim>, c: Conflict)
    ensures c in ResourceConflicts(resources, claims) <==>
            c.artifact in resources && |OwnersIn(claims, c.artifact)| > 1
            && c.specIds == SortedTuple(OwnersIn(claims, c.artifact))
  {
    if resources != [] {
      var front, last := resources[..|resources| - 1], resources[|resources| - 1];
      ConflictOfResource(front, claims, c);
      assert forall r :: r in resources <==> r in front || r == last;
    }
  }

  lemma SortedOwnersAreTheListing(nodes: seq<SpecNode>, r: string)
    ensures var ids := SortedTuple(OwnersIn(Claims(nodes), r));
            Ascending(StringOrder(), ids) && forall id :: multiset(ids)[id] == ListedBy(nodes, r, id)
  {
    var owners := OwnersIn(Claims(nodes), r);
    StringOrderTotal();
    InsertionSortAscends(StringOrder(), owners);
    forall id ensures multiset(owners)[id] == ListedBy(nodes, r, id) { OwnersAreTheListing(nodes, r, id); }
  }

  lemma OneListingInOrder(nodes: seq<SpecNode>, r: string, ids: seq<string>)
    requires Ascending(StringOrder(), ids) && forall id :: multiset(ids)[id] == ListedBy(nodes, r, id)
    ensures ids == SortedTuple(OwnersIn(Claims(nodes), r))
  {
    SortedOwnersAreTheListing(nodes, r);
    StringOrderTotal();
    var sorted := SortedTuple(OwnersIn(Claims(nodes), r));
    assert forall id :: multiset(ids)[id] == multiset(sorted)[id];
    AscendingIsUnique(StringOrder(), ids, sorted);
  }

  /** The resource conflicts are those of the resources listed more than once, each with the ids of all
      its listings. */
  lemma RivalryIsReportedIff(nodes: seq<SpecNode>, c: Conflict)
    ensures c in ResourceConflicts(Resources(nodes), Claims(nodes)) <==> IsRivalry(nodes, c)
  {
    ConflictOfResource(Resources(nodes), Claims(nodes), c);
    OwnersAreListings(nodes, c.artifact);
    if OwnersIn(Claims(nodes), c.artifact) != [] { ClaimedIffOwned(Claims(nodes), c.artifact); }
    SortedOwnersAreTheListing(nodes, c.artifact);
    if IsRivalry(nodes, c) { OneListingInOrder(nodes, c.artifact, c.specIds); }
  }

  ghost predicate ArtifactsIncrease(cs: seq<Conflict>) {
    forall i, j | 0 <= i < j < |cs| :: StringOrder()(cs[i].artifact, cs[j].artifact) && cs[i].artifact != cs[j].artifact
  }

  lemma {:induction false} ConflictsIncrease(resources: seq<string>, claims: seq<Claim>)
    requires Increasing(StringOrder(), resources)
    ensures ArtifactsIncrease(ResourceConflicts(resources, claims))
  {
    if resources != [] {
      var front, last := resources[..|resources| - 1], resources[|resources| - 1];
      ConflictsIncrease(front, claims);
      var cs := ResourceConflicts(front, claims);
      forall c | c in cs ensures StringOrder()(c.artifact, last) && c.artifact != last {
        ConflictOfResource(front, claims, c);
        var i :| 0 <= i < |front| && front[i] == c.artifact;
        assert resources[i] == c.artifact && resources[|front|] == last;
      }
    }
  }

  /** Each resource is reported once, in the order of the resources. */
  lemma ResourcesAreReportedInOrder(nodes: seq<SpecNode>)
    ensures ArtifactsIncrease(ResourceConflicts(Resources(nodes), Claims(nodes)))
  {
    StringOrderTotal();
    ConflictsIncrease(Resources(nodes), Claims(nodes));
  }

  // The order of the path conflicts.

  ghost predicate Earlier(p: (int, int), q: (int, int)) { p.0 < q.0 || (p.0 == q.0 && p.1 < q.1) }

  ghost predicate Reported<T, C>(compare: (T, T) -> seq<C>, xs: seq<T>, p: (int, int)) {
    0 <= p.0 < p.1 < |xs| && compare(xs[p.0], xs[p.1]) != []
  }

  ghost predicate InPairOrder(pairs: seq<(int, int)>) {
    forall k, l :: 0 <= k < l < |pairs| ==> Earlier(pairs[k], pairs[l])
  }

  /** What is reported up to the pair `end`: of the pairs before it those that the comparison reports, in
      order, each with its own report. */
  ghost predicate ReportsPairs<T, C>(compare: (T, T) -> seq<C>, xs: seq<T>, reports: seq<C>, pairs: seq<(int, int)>,
                                     end: (int, int)) {
    && |pairs| == |reports| && InPairOrder(pairs)
    && (forall k :: 0 <= k < |pairs| ==>
          Reported(compare, xs, pairs[k]) && compare(xs[pairs[k].0], xs[pairs[k].1]) == [reports[k]])
    && (forall p :: p in pairs <==> Reported(compare, xs, p) && Earlier(p, end))
  }

  ghost predicate OneAtMost<T(!new), C>(compare: (T, T) -> seq<C>) { forall a, b :: |compare(a, b)| <= 1 }

  lemma OnePairMore<T(!new), C>(compare: (T, T) -> seq<C>, xs: seq<T>, reports: seq<C>, pairs: seq<(int, int)>,
                                outer: nat, inner: nat) returns (more: seq<(int, int)>)
    requires OneAtMost(compare) && outer < inner < |xs| && ReportsPairs(compare, xs, reports, pairs, (outer, inner))
    ensures ReportsPairs(compare, xs, reports + compare(xs[outer], xs[inner]), more, (outer, inner + 1))
  {
    var one := compare(xs[outer], xs[inner]);
    assert |one| <= 1;
    if one == [] {
      more := pairs;
      assert reports + one == reports;
    } else {
      more := pairs + [(outer as int, inner as int)];
      assert one == [one[0]];
    }
    forall p ensures p in more <==> Reported(compare, xs, p) && Earlier(p, (outer, inner + 1)) {
      assert Earlier(p, (outer, inner + 1)) <==> Earlier(p, (outer, inner)) || p == (outer, inner);
    }
  }

  lemma {:induction false} PairsReported<T(!new), C>(compare: (T, T) -> seq<C>, xs: seq<T>, outer: nat, n: nat)
    returns (pairs: seq<(int, int)>)
    requires OneAtMost(compare) && outer < n <= |xs|
    ensures ReportsPairs(compare, xs, Pairwise(compare, xs, outer) + Row(compare, xs, outer, n), pairs, (outer, n))
    decreases outer, n
  {
    var before := Pairwise(compare, xs, outer);
    if n > outer + 1 {
      pairs := PairsReported(compare, xs, outer, n - 1);
      pairs := OnePairMore(compare, xs, before + Row(compare, xs, outer, n - 1), pairs, outer, n - 1);
      Assoc(before, Row(compare, xs, outer, n - 1), compare(xs[outer], xs[n - 1]));
    } else if outer == 0 {
      pairs := [];
    } else {
      pairs := PairsReported(compare, xs, outer - 1, |xs|);
      assert before + Row(compare, xs, outer, n) == before;
      forall p | Reported(compare, xs, p) ensures Earlier(p, (outer, n)) <==> Earlier(p, (outer - 1, |xs|)) {}
    }
  }

  predicate Overlap(a: OwnedPath, b: OwnedPath) { a.id != b.id && (Under(a.path, b.path) || Under(b.path, a.path)) }

  /** The conflict of two overlapping paths names both specs and the deeper path. */
  ghost predicate NamesOverlap(c: Conflict, a: OwnedPath, b: OwnedPath) {
    && c.specIds == PairOfIds(a.id, b.id) && c.artifact in [a.path, b.path]
    && Under(a.path, c.artifact) && Under(b.path, c.artifact)
  }

  lemma PairIsOverlap(a: OwnedPath, b: OwnedPath)
    ensures |PairConflict(a, b)| == if Overlap(a, b) then 1 else 0
  {
    PathContainsIff(a.path, b.path);
    PathContainsIff(b.path, a.path);
  }

  lemma OverlapIsNamed(a: OwnedPath, b: OwnedPath)
    requires Overlap(a, b) && RStrip(a.path) == a.path && RStrip(b.path) == b.path
    ensures |PairConflict(a, b)| == 1 && NamesOverlap(PairConflict(a, b)[0], a, b)
  {
    PairIsOverlap(a, b);
    PathContainsIff(a.path, b.path);
    PathContainsIff(b.path, a.path);
    OverlapIsShared(a.path, b.path);
  }

  lemma OwnedPathsAreStripped(nodes: seq<SpecNode>, p: OwnedPath)
    requires p in OwnedPaths(nodes)
    ensures RStrip(p.path) == p.path
  {
    PathListed(nodes, p);
    var n :| n in nodes && IsPathOf(n, p);
    var c :| c in n.ownsCode && p == OwnedPath(n.id, RStrip(c));
    RStripTwice(c);
  }

  /** The overlapping pairs of owned paths are reported once each, in the order of the paths. */
  lemma PairsAreReportedInOrder(nodes: seq<SpecNode>) returns (pairs: seq<(int, int)>)
    ensures var paths := OwnedPaths(nodes);
            && |pairs| == |PathConflicts(paths)| && InPairOrder(pairs)
            && (forall p: (int, int) :: p in pairs <==> 0 <= p.0 < p.1 < |paths| && Overlap(paths[p.0], paths[p.1]))
            && (forall k :: 0 <= k < |pairs| ==>
                  && 0 <= pairs[k].0 < pairs[k].1 < |paths|
                  && NamesOverlap(PathConflicts(paths)[k], paths[pairs[k].0], paths[pairs[k].1]))
  {
    var paths := OwnedPaths(nodes);
    forall a, b ensures |PairConflict(a, b)| == if Overlap(a, b) then 1 else 0 {
      PairIsOverlap(a, b);
    }
    if paths == [] {
      pairs := [];
    } else {
      pairs := PairsReported(PairConflict, paths, |paths| - 1, |paths|);
      forall k | 0 <= k < |pairs|
        ensures NamesOverlap(PathConflicts(paths)[k], paths[pairs[k].0], paths[pairs[k].1])
      {
        assert Reported(PairConflict, paths, pairs[k]);
        OwnedPathsAreStripped(nodes, paths[pairs[k].0]);
        OwnedPathsAreStripped(nodes, paths[pairs[k].1]);
        OverlapIsNamed(paths[pairs[k].0], paths[pairs[k].1]);
      }
    }
  }

  /** No path lies under paths of two specs. */
  ghost predicate PathsDisjoint(nodes: seq<SpecNode>) {
    forall m, n, a | m in nodes && n in nodes && m.id != n.id :: !(OwnsPath(m, a) && OwnsPath(n, a))
  }

  function Report(nodes: seq<SpecNode>): seq<Conflict> {
    ResourceConflicts(Resources(nodes), Claims(nodes)) + PathConflicts(OwnedPaths(nodes))
  }

  lemma {:induction false} ResourceIdsAscend(resources: seq<string>, claims: seq<Claim>, c: Conflict)
    requires c in ResourceConflicts(resources, claims)
    ensures exists r :: c.specIds == SortedTuple(OwnersIn(claims, r)) && c.artifact == r
  {
    var front, r := resources[..|resources| - 1], resources[|resources| - 1];
    if c in ResourceConflicts(front, claims) { ResourceIdsAscend(front, claims, c); }
  }

  /** Every conflict names its specs in sorted order. */
  lemma ReportedIdsAscend(nodes: seq<SpecNode>, c: Conflict)
    requires c in Report(nodes)
    ensures Ascending(StringOrder(), c.specIds)
  {
    StringOrderTotal();
    if c in ResourceConflicts(Resources(nodes), Claims(nodes)) {
      ResourceIdsAscend(Resources(nodes), Claims(nodes), c);
      InsertionSortAscends(StringOrder(), OwnersIn(Claims(nodes), c.artifact));
    } else {
      var paths := OwnedPaths(nodes);
      var i, j := PairwiseReports(PairConflict, paths, |paths|, c);
      PairIsSorted(paths[i].id, paths[j].id);
      InsertionSortAscends(StringOrder(), [paths[i].id, paths[j].id]);
    }
  }

  lemma PathReportEmptyIff(nodes: seq<SpecNode>)
    ensures PathConflicts(OwnedPaths(nodes)) == [] <==> PathsDisjoint(nodes)
  {
    var r := PathConflicts(OwnedPaths(nodes));
    forall m, n, a | m in nodes && n in nodes && m.id != n.id && OwnsPath(m, a) && OwnsPath(n, a)
      ensures r != []
    {
      SharedPathIsReported(nodes, m, n, a);
    }
    if r != [] {
      ReportedPathIsShared(nodes, r[0]);
      var m, n :| m in nodes && n in nodes && SharedBy(r[0], m, n);
    }
  }

  lemma ResourceReportEmptyIff(nodes: seq<SpecNode>)
    ensures ResourceConflicts(Resources(nodes), Claims(nodes)) == [] <==> forall r :: ListedOnce(nodes, r)
  {
    ResourceReported(Resources(nodes), Claims(nodes));
    forall r ensures |OwnersIn(Claims(nodes), r)| <= 1 <==> ListedOnce(nodes, r) {
      OwnersAreListings(nodes, r);
      ListedOnceIff(nodes, r);
    }
    forall r | r !in Resources(nodes) ensures |OwnersIn(Claims(nodes), r)| <= 1 {
      ClaimedIffOwned(Claims(nodes), r);
    }
  }

  /** Exactly when the check reports nothing. The last condition is not about two specs at all:
      one spec that lists a resource twice is reported as its own rival. */
  lemma NothingReportedIff(nodes: seq<SpecNode>)
    ensures Report(nodes) == [] <==> PathsDisjoint(nodes) && forall r :: ListedOnce(nodes, r)
  {
    PathReportEmptyIff(nodes);
    ResourceReportEmptyIff(nodes);
  }

  /** A conflict without a second spec. */
  lemma OwnRivalIsReported()
    ensures var nodes := [SpecNode("SP-A", [], ["format:x", "format:x"])];
            Report(nodes) != [] && forall m, n | m in nodes && n in nodes :: m.id == n.id
  {
    var nodes := [SpecNode("SP-A", [], ["format:x", "format:x"])];
    NothingReportedIff(nodes);
    assert nodes[0].ownsResources == ["format:x", "format:x"];
    assert Listings(nodes[0], "format:x") == 2;
    assert !ListedOnce(nodes, "format:x");
  }

  lemma AtMostOneOwner(nodes: seq<SpecNode>, artifact: string, m: SpecNode, n: SpecNode)
    requires Report(nodes) == [] && m in nodes && n in nodes && Owns(m, artifact) && Owns(n, artifact)
    ensures m.id == n.id
  {
    NothingReportedIff(nodes);
    if NamesResource(artifact) {
      var i :| 0 <= i < |nodes| && nodes[i] == m;
      var j :| 0 <= j < |nodes| && nodes[j] == n;
      assert ListedOnce(nodes, artifact) && Listings(m, artifact) > 0 && Listings(n, artifact) > 0;
    }
  }

  /** With nothing reported, the owner is a matter of the specs, not of the order they are met in. */
  lemma OwnerIgnoresOrder(nodes: seq<SpecNode>, other: seq<SpecNode>, artifact: string,
                          r: Option<string>, r': Option<string>)
    requires Report(nodes) == [] && forall n :: n in nodes <==> n in other
    requires Resolves(nodes, artifact, r) && Resolves(other, artifact, r')
    ensures r == r'
    ensures forall n | n in nodes && Owns(n, artifact) :: r == Some(n.id)
  {
    ResolvedOwns(nodes, artifact, r);
    ResolvedOwns(other, artifact, r');
    forall n | n in nodes && Owns(n, artifact) ensures r == Some(n.id) == r' {
      var m :| m in nodes && m.id == r.value && Owns(m, artifact);
      AtMostOneOwner(nodes, artifact, m, n);
      var m' :| m' in other && m'.id == r'.value && Owns(m', artifact);
      AtMostOneOwner(nodes, artifact, m', n);
    }
  }
}
