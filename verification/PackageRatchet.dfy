/** The rest of scripts/check-package-cycles.ts: reachability, the baseline of tolerated edges,
    and the graph the manifests of a workspace describe. */
module PackageRatchet {
  import opened Collections
  import opened PackageCycles
  import opened Wrappers

  // ---------------------------------------------------------------- reachability

  lemma ReachableStart(g: PackageGraph, a: string)
    ensures Reachable(g, a, a)
  {
    assert WalkFromTo(g, [a], a, a);
  }

  lemma ReachableStep(g: PackageGraph, a: string, b: string, c: string)
    requires Reachable(g, a, b) && Edge(g, b, c)
    ensures Reachable(g, a, c)
  {
    var p :| WalkFromTo(g, p, a, b);
    assert WalkFromTo(g, p + [c], a, c);
  }

  ghost predicate ClosedUnderEdges(g: PackageGraph, s: set<string>) {
    forall n, t :: n in s && t in Successors(g, n) ==> t in s
  }

  lemma {:induction false} WalkStaysInside(g: PackageGraph, s: set<string>, p: seq<string>)
    requires ClosedUnderEdges(g, s) && p != [] && IsWalk(g, p) && p[0] in s
    ensures p[|p| - 1] in s
  {
    if |p| > 1 {
      assert Edge(g, p[0], p[1]);
      assert IsWalk(g, p[1..]) by {
        forall i | 0 <= i < |p[1..]| - 1 ensures Edge(g, p[1..][i], p[1..][i + 1]) {
          assert Edge(g, p[i + 1], p[i + 2]);
        }
      }
      WalkStaysInside(g, s, p[1..]);
    }
  }

  /** Breadth-first search over a queue that grows while it is read; terminates on cyclic graphs. */
  method Reaches(graph: PackageGraph, start: string, target: string) returns (found: bool)
    requires IsMap(graph)
    ensures found <==> Reachable(graph, start, target)
  {
    hide IsMap, Reachable, Universe, Successors;
    var seen: set<string> := {};
    var queue := [start];
    var i := 0;
    ghost var all := Universe(graph) + {start};
    ReachableStart(graph, start);
    while i < |queue|
      invariant 0 <= i <= |queue| && |queue| > 0 && queue[0] == start
      invariant forall n :: n in queue ==> n in all && Reachable(graph, start, n)
      invariant forall j :: 0 <= j < i ==> queue[j] in seen
      invariant forall n :: n in seen ==> n in all && n != target
      invariant forall n, t :: n in seen && t in Successors(graph, n) ==> t in queue
      decreases |all - seen|, |queue| - i
    {
      var node := queue[i];
      i := i + 1;
      if node == target { return true; }
      if node in seen { continue; }
      ghost var before := all - seen;
      seen := seen + {node};
      assert all - seen == before - {node};
      SuccessorsInUniverse(graph, node);
      forall t | t in Successors(graph, node) ensures Reachable(graph, start, t) {
        assert Edge(graph, node, t);
        ReachableStep(graph, start, node, t);
      }
      queue := queue + Successors(graph, node);
    }
    assert queue[0] in seen;
    assert forall n :: n in queue ==> n in seen;
    if Reachable(graph, start, target) {
      UnreachableOutside(graph, seen, start, target);
    }
    return false;
  }

  lemma UnreachableOutside(g: PackageGraph, s: set<string>, start: string, target: string)
    requires ClosedUnderEdges(g, s) && start in s && Reachable(g, start, target)
    ensures target in s
  {
    var p :| WalkFromTo(g, p, start, target);
    WalkStaysInside(g, s, p);
  }

  // ---------------------------------------------------------------- the ratchet

  datatype BaselineEdge = BaselineEdge(from: string, to: string)

  ghost predicate OnCycle(g: PackageGraph, a: string, b: string) {
    exists p :: IsCycle(g, p) && UsesEdge(p, a, b)
  }

  /** What the staleness test of `checkAgainstBaseline` decides. */
  lemma EdgeOnCycle(g: PackageGraph, a: string, b: string)
    ensures OnCycle(g, a, b) <==> Edge(g, a, b) && Reachable(g, b, a)
  {
    if OnCycle(g, a, b) {
      var p :| IsCycle(g, p) && UsesEdge(p, a, b);
      var i :| 0 <= i < |p| - 1 && p[i] == a && p[i + 1] == b;
      RestOfCycle(g, p, i);
    }
    if Edge(g, a, b) && Reachable(g, b, a) {
      var w :| WalkFromTo(g, w, b, a);
      ClosedWalk(g, a, w);
    }
  }

  /** What is left of a cycle without one of its edges leads back to the start of that edge. */
  lemma RestOfCycle(g: PackageGraph, p: seq<string>, i: nat)
    requires IsCycle(g, p) && i < |p| - 1
    ensures Edge(g, p[i], p[i + 1]) && Reachable(g, p[i + 1], p[i])
  {
    hide Edge;
    var head, tail := p[1..i + 1], p[i + 1..];
    var w := tail + head;
    forall k | 0 <= k < |w| - 1 ensures Edge(g, w[k], w[k + 1]) {
      if k + 1 < |tail| {
        assert w[k] == p[i + 1 + k] && w[k + 1] == p[i + 2 + k];
      } else if k + 1 == |tail| {
        assert w[k] == p[0] && w[k + 1] == p[1];
      } else {
        assert w[k] == p[1 + k - |tail|] && w[k + 1] == p[2 + k - |tail|];
      }
    }
    assert w[0] == p[i + 1] && w[|w| - 1] == if i == 0 then p[|p| - 1] else p[i];
    assert Edge(g, p[i], p[i + 1]);
    assert WalkFromTo(g, w, p[i + 1], p[i]);
  }

  lemma ClosedWalk(g: PackageGraph, a: string, w: seq<string>)
    requires w != [] && Edge(g, a, w[0]) && WalkFromTo(g, w, w[0], a)
    ensures OnCycle(g, a, w[0])
  {
    hide Edge;
    var p := [a] + w;
    forall k | 0 <= k < |p| - 1 ensures Edge(g, p[k], p[k + 1]) {
      if k > 0 {
        assert Edge(g, w[k - 1], w[k]);
      }
    }
    assert p[0] == a && p[1] == w[0];
    assert IsCycle(g, p) && UsesEdge(p, a, w[0]);
  }

  predicate Tolerates(baseline: seq<BaselineEdge>, a: string, b: string) {
    BaselineEdge(a, b) in baseline
  }

  /** Some edge of the cycle is tolerated. */
  ghost predicate CutBy(baseline: seq<BaselineEdge>, p: seq<string>) {
    exists i :: 0 <= i < |p| - 1 && BaselineEdge(p[i], p[i + 1]) in baseline
  }

  /** `edges.filter((to) => !baseline.some(...))` */
  function Untolerated(edges: seq<string>, node: string, baseline: seq<BaselineEdge>): (kept: seq<string>)
    ensures forall t :: t in kept <==> t in edges && BaselineEdge(node, t) !in baseline
  {
    if edges == [] then []
    else (if Tolerates(baseline, node, edges[0]) then [] else [edges[0]]) + Untolerated(edges[1..], node, baseline)
  }

  /** A cycle of the stripped graph is a cycle of the full graph that uses no tolerated edge. */
  lemma StrippedCycles(g: PackageGraph, stripped: PackageGraph, baseline: seq<BaselineEdge>, p: seq<string>)
    requires forall a, b :: Edge(stripped, a, b) <==> Edge(g, a, b) && BaselineEdge(a, b) !in baseline
    ensures IsCycle(stripped, p) <==> IsCycle(g, p) && !CutBy(baseline, p)
  {
    hide Edge;
    if IsCycle(stripped, p) {
      forall i | 0 <= i < |p| - 1 ensures Edge(g, p[i], p[i + 1]) && BaselineEdge(p[i], p[i + 1]) !in baseline {
        assert Edge(stripped, p[i], p[i + 1]);
      }
    }
    if IsCycle(g, p) && !CutBy(baseline, p) {
      forall i | 0 <= i < |p| - 1 ensures Edge(stripped, p[i], p[i + 1]) {
        assert Edge(g, p[i], p[i + 1]);
      }
    }
  }

  method Strip(graph: PackageGraph, baseline: seq<BaselineEdge>) returns (stripped: PackageGraph)
    requires IsMap(graph)
    ensures IsMap(stripped)
    ensures forall a, b :: Edge(stripped, a, b) <==> Edge(graph, a, b) && BaselineEdge(a, b) !in baseline
  {
    var targets: map<string, seq<string>> := map[];
    for i := 0 to |graph.nodes|
      invariant targets.Keys == set n | n in graph.nodes[..i]
      invariant forall n :: n in targets ==>
        n in graph.targets && targets[n] == Untolerated(graph.targets[n], n, baseline)
    {
      var node := graph.nodes[i];
      assert graph.nodes[..i + 1] == graph.nodes[..i] + [node];
      targets := targets[node := Untolerated(graph.targets[node], node, baseline)];
    }
    assert graph.nodes[..|graph.nodes|] == graph.nodes;
    stripped := PackageGraph(graph.nodes, targets);
    assert forall n :: n in targets <==> n in graph.targets;
  }

  /** The baseline edges that lie on no cycle, in order. */
  ghost function OffCycle(g: PackageGraph, baseline: seq<BaselineEdge>): seq<BaselineEdge> {
    if baseline == [] then []
    else
      var last := baseline[|baseline| - 1];
      OffCycle(g, baseline[..|baseline| - 1]) + (if OnCycle(g, last.from, last.to) then [] else [last])
  }

  lemma {:induction false} OffCycleMembers(g: PackageGraph, baseline: seq<BaselineEdge>)
    ensures forall e :: e in OffCycle(g, baseline) <==> e in baseline && !OnCycle(g, e.from, e.to)
  {
    hide OnCycle;
    if baseline != [] {
      var rest, last := baseline[..|baseline| - 1], baseline[|baseline| - 1];
      OffCycleMembers(g, rest);
      assert baseline == rest + [last];
    }
  }

  lemma {:induction false} OffCycleEmpty(g: PackageGraph, baseline: seq<BaselineEdge>)
    ensures OffCycle(g, baseline) == [] <==> forall e :: e in baseline ==> OnCycle(g, e.from, e.to)
  {
    hide OnCycle;
    if baseline != [] {
      var rest, last := baseline[..|baseline| - 1], baseline[|baseline| - 1];
      OffCycleEmpty(g, rest);
      assert baseline == rest + [last];
    }
  }

  /** Stale is exactly what is absent or on no cycle; unexpected is empty exactly when every cycle of
      the full graph uses a tolerated edge. Both empty: the baseline covers all cycles and nothing else. */
  method CheckAgainstBaseline(graph: PackageGraph, baseline: seq<BaselineEdge>)
      returns (unexpected: seq<seq<string>>, stale: seq<BaselineEdge>)
    requires IsMap(graph)
    ensures stale == OffCycle(graph, baseline)
    ensures forall e :: e in stale <==> e in baseline && !OnCycle(graph, e.from, e.to)
    ensures unexpected == [] <==> forall p :: IsCycle(graph, p) ==> CutBy(baseline, p)
    ensures forall r :: r in unexpected ==> IsCycle(graph, r) && !CutBy(baseline, r)
    ensures unexpected == [] && stale == [] <==>
      && (forall p :: IsCycle(graph, p) ==> CutBy(baseline, p))
      && (forall e :: e in baseline ==> OnCycle(graph, e.from, e.to))
  {
    hide IsMap, IsCycle, CutBy, OnCycle, Edge, Reachable;
    stale := [];
    for i := 0 to |baseline|
      invariant stale == OffCycle(graph, baseline[..i])
    {
      var edge := baseline[i];
      EdgeOnCycle(graph, edge.from, edge.to);
      var present := edge.to in Successors(graph, edge.from);
      assert present == Edge(graph, edge.from, edge.to) by { EdgeMeans(graph, edge.from, edge.to); }
      var reaches := false;
      if present {
        reaches := Reaches(graph, edge.to, edge.from);
      }
      if !present || !reaches {
        stale := stale + [edge];
      }
      assert baseline[..i + 1][..i] == baseline[..i];
    }
    assert baseline[..|baseline|] == baseline;
    var stripped := Strip(graph, baseline);
    unexpected := FindCycles(stripped);
    forall p ensures IsCycle(stripped, p) <==> IsCycle(graph, p) && !CutBy(baseline, p) {
      StrippedCycles(graph, stripped, baseline, p);
    }
    OffCycleEmpty(graph, baseline);
    OffCycleMembers(graph, baseline);
    assert forall r :: r in unexpected ==> IsReport(stripped, r);
  }

  lemma EdgeMeans(g: PackageGraph, a: string, b: string)
    ensures Edge(g, a, b) <==> b in Successors(g, a)
  {
  }

  // ---------------------------------------------------------------- the graph of a workspace

  /** What `buildPackageGraph` reads of a package.json. A block that is not an object has no names. */
  datatype Manifest = Manifest(
    name: Option<string>,
    testRuntime: bool,
    dependencies: seq<string>,
    devDependencies: seq<string>,
    peerDependencies: seq<string>)

  predicate Named(m: Manifest, n: string) {
    m.name == Some(n)
  }

  ghost predicate InWorkspace(manifests: seq<Manifest>, n: string) {
    exists m :: m in manifests && Named(m, n)
  }

  /** A package whose devDependencies, and devDependencies on which, are not edges. */
  ghost predicate IsHarness(manifests: seq<Manifest>, n: string) {
    exists m :: m in manifests && Named(m, n) && m.testRuntime
  }

  /** The manifest that decides the edges of `n`: the last one of that name. */
  ghost function Deciding(manifests: seq<Manifest>, n: string): (m: Manifest)
    requires InWorkspace(manifests, n)
    ensures m in manifests && Named(m, n)
  {
    var last := manifests[|manifests| - 1];
    if Named(last, n) then last else Deciding(manifests[..|manifests| - 1], n)
  }

  ghost predicate Declares(all: seq<Manifest>, m: Manifest, n: string, target: string) {
    || target in m.dependencies
    || target in m.peerDependencies
    || (target in m.devDependencies && !IsHarness(all, n) && !IsHarness(all, target))
  }

  /** `new Set(names)` and `set.add`: names once each, in the order of their first occurrence. */
  function Insert(names: seq<string>, more: seq<string>): (r: seq<string>)
    requires Distinct(names)
    ensures Distinct(r)
    ensures forall n :: n in r <==> n in names || n in more
    decreases more
  {
    if more == [] then names
    else Insert(if more[0] in names then names else names + [more[0]], more[1..])
  }

  function Keep(names: seq<string>, workspace: set<string>, self: string): (r: seq<string>)
    requires Distinct(names)
    ensures Distinct(r)
    ensures forall n :: n in r <==> n in names && n in workspace && n != self
  {
    if names == [] then []
    else
      var rest := Keep(names[1..], workspace, self);
      if names[0] in workspace && names[0] != self then [names[0]] + rest else rest
  }

  method EdgesOf(manifest: Manifest, name: string, workspace: set<string>, harness: set<string>)
      returns (targets: seq<string>)
    ensures Distinct(targets)
    ensures forall t :: t in targets <==>
      && t in workspace && t != name
      && (t in manifest.dependencies || t in manifest.peerDependencies
          || (t in manifest.devDependencies && name !in harness && t !in harness))
  {
    assert Distinct<string>([]);
    hide Insert, Keep, Distinct;
    var edges := Insert([], manifest.dependencies + manifest.peerDependencies);
    for i := 0 to |manifest.devDependencies|
      invariant Distinct(edges)
      invariant forall t :: t in edges <==>
        || t in manifest.dependencies || t in manifest.peerDependencies
        || (t in manifest.devDependencies[..i] && name !in harness && t !in harness)
    {
      var dev := manifest.devDependencies[i];
      assert manifest.devDependencies[..i + 1] == manifest.devDependencies[..i] + [dev];
      if dev in harness || name in harness { continue; }
      edges := Insert(edges, [dev]);
    }
    targets := Keep(edges, workspace, name);
  }

  lemma NextManifest(before: seq<Manifest>, m: Manifest)
    ensures forall n :: InWorkspace(before + [m], n) <==> InWorkspace(before, n) || Named(m, n)
    ensures forall n :: InWorkspace(before + [m], n) ==>
      Deciding(before + [m], n) == if Named(m, n) then m else Deciding(before, n)
  {
    var all := before + [m];
    assert all[|all| - 1] == m && all[..|all| - 1] == before;
    forall n ensures InWorkspace(all, n) <==> InWorkspace(before, n) || Named(m, n) {
      if InWorkspace(before, n) {
        var k :| k in before && Named(k, n);
        assert k in all;
      }
      if Named(m, n) {
        assert m in all;
      }
    }
  }

  /** `g` is the graph of the manifests seen so far. */
  ghost predicate Describes(g: PackageGraph, all: seq<Manifest>, seen: seq<Manifest>) {
    && IsMap(g)
    && (forall n :: n in g.nodes <==> InWorkspace(seen, n))
    && (forall n, t :: n in g.nodes ==> (t in g.targets[n] <==> IsEdge(all, seen, n, t)))
  }

  ghost predicate IsEdge(all: seq<Manifest>, seen: seq<Manifest>, n: string, t: string) {
    InWorkspace(seen, n) && InWorkspace(all, t) && t != n && Declares(all, Deciding(seen, n), n, t)
  }

  lemma DescribesNext(g: PackageGraph, all: seq<Manifest>, seen: seq<Manifest>, m: Manifest,
                      name: string, targets: seq<string>)
    requires Describes(g, all, seen) && m.name == Some(name)
    requires forall t :: t in targets <==> InWorkspace(all, t) && t != name && Declares(all, m, name, t)
    ensures Describes(PackageGraph(Insert(g.nodes, [name]), g.targets[name := targets]), all, seen + [m])
  {
    hide Declares, Distinct, InWorkspace, Deciding;
    NextManifest(seen, m);
    var after := PackageGraph(Insert(g.nodes, [name]), g.targets[name := targets]);
    forall n, t | n in after.nodes ensures t in after.targets[n] <==> IsEdge(all, seen + [m], n, t) {
      assert n == name || IsEdge(all, seen + [m], n, t) == IsEdge(all, seen, n, t);
    }
  }

  /** The nodes are the named packages; an edge is a declared dependency on another workspace package,
      except a devDependency from or to the test harness. No package depends on itself. */
  method BuildPackageGraph(manifests: seq<Manifest>) returns (graph: PackageGraph)
    ensures IsMap(graph)
    ensures forall n :: n in graph.nodes <==> InWorkspace(manifests, n)
    ensures forall a, b :: Edge(graph, a, b) <==>
      && InWorkspace(manifests, a) && InWorkspace(manifests, b) && a != b
      && Declares(manifests, Deciding(manifests, a), a, b)
  {
    var workspace := set m | m in manifests && m.name.Some? :: m.name.value;
    var harness := set m | m in manifests && m.name.Some? && m.testRuntime :: m.name.value;
    assert forall n :: n in workspace <==> InWorkspace(manifests, n);
    assert forall n :: n in harness <==> IsHarness(manifests, n);
    graph := PackageGraph([], map[]);
    for i := 0 to |manifests|
      invariant Describes(graph, manifests, manifests[..i])
    {
      hide Declares, Distinct, InWorkspace, Deciding, IsHarness, Describes;
      var manifest := manifests[i];
      assert manifests[..i + 1] == manifests[..i] + [manifest];
      if manifest.name.None? {
        continue;
      }
      var name := manifest.name.value;
      var targets := EdgesOf(manifest, name, workspace, harness);
      DescribesNext(graph, manifests, manifests[..i], manifest, name, targets);
      graph := PackageGraph(Insert(graph.nodes, [name]), graph.targets[name := targets]);
    }
    assert manifests[..|manifests|] == manifests;
  }
}
