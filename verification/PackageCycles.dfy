/** The package-graph ratchet: which package cycles exist, and which of them a list of
    tolerated edges covers (scripts/check-package-cycles.ts). */
module PackageCycles {
  import opened Collections
  import opened Strings

  // ---------------------------------------------------------------- graphs, walks, cycles

  /** A `Map<string, string[]>`: its keys in insertion order, and the targets of each key. */
  datatype PackageGraph = PackageGraph(nodes: seq<string>, targets: map<string, seq<string>>)

  /** What every JavaScript map satisfies: `nodes` lists each key once. */
  predicate IsMap(g: PackageGraph) {
    && Distinct(g.nodes)
    && (forall n :: n in g.nodes ==> n in g.targets)
    && (forall n :: n in g.targets ==> n in g.nodes)
  }

  /** `graph.get(node) ?? []` */
  function Successors(g: PackageGraph, node: string): seq<string> {
    if node in g.targets then g.targets[node] else []
  }

  predicate Edge(g: PackageGraph, a: string, b: string) {
    b in Successors(g, a)
  }

  predicate IsWalk(g: PackageGraph, p: seq<string>) {
    forall i :: 0 <= i < |p| - 1 ==> Edge(g, p[i], p[i + 1])
  }

  /** A directed cycle, written with its first node repeated at the end. */
  predicate IsCycle(g: PackageGraph, p: seq<string>) {
    |p| >= 2 && p[0] == p[|p| - 1] && IsWalk(g, p)
  }

  predicate UsesEdge(p: seq<string>, a: string, b: string) {
    exists i :: 0 <= i < |p| - 1 && p[i] == a && p[i + 1] == b
  }

  ghost predicate WalkFromTo(g: PackageGraph, p: seq<string>, a: string, b: string) {
    |p| >= 1 && p[0] == a && p[|p| - 1] == b && IsWalk(g, p)
  }

  ghost predicate Reachable(g: PackageGraph, a: string, b: string) {
    exists p :: WalkFromTo(g, p, a, b)
  }

  ghost function Targets(g: PackageGraph, nodes: seq<string>): set<string> {
    if nodes == [] then {}
    else (set t | t in Successors(g, nodes[0])) + Targets(g, nodes[1..])
  }

  lemma TargetsContains(g: PackageGraph, nodes: seq<string>, a: string, b: string)
    requires a in nodes && Edge(g, a, b)
    ensures b in Targets(g, nodes)
  {
    if a != nodes[0] {
      TargetsContains(g, nodes[1..], a, b);
    }
  }

  /** Every name the graph mentions: what bounds the depth of the search. */
  ghost function Universe(g: PackageGraph): set<string> {
    (set n | n in g.nodes) + Targets(g, g.nodes)
  }

  lemma SuccessorsInUniverse(g: PackageGraph, a: string)
    requires IsMap(g)
    ensures forall b :: b in Successors(g, a) ==> b in Universe(g)
  {
    forall b | b in Successors(g, a) ensures b in Universe(g) {
      TargetsContains(g, g.nodes, a, b);
    }
  }

  // ---------------------------------------------------------------- naming a cycle

  predicate IsRotation(c: seq<string>, d: seq<string>) {
    exists k :: 0 <= k <= |c| && d == c[k..] + c[..k]
  }

  /** `cycle.indexOf(node)` */
  function IndexOf(c: seq<string>, node: string): (i: nat)
    requires node in c
    ensures i < |c| && c[i] == node
  {
    if c[0] == node then 0 else 1 + IndexOf(c[1..], node)
  }

  lemma {:induction false} IndexOfSplit(x: seq<string>, m: string, y: seq<string>)
    requires m !in x
    ensures m in x + [m] + y && IndexOf(x + [m] + y, m) == |x|
  {
    var c := x + [m] + y;
    assert c[|x|] == m;
    if x != [] {
      assert c[0] == x[0] && c[1..] == x[1..] + [m] + y;
      IndexOfSplit(x[1..], m, y);
    }
  }

  /** The rotation of a cycle that starts at its least name. */
  function Canonical(c: seq<string>): seq<string>
    requires c != []
  {
    var first := IndexOf(c, Least(c));
    c[first..] + c[..first]
  }

  function CycleKey(c: seq<string>): string {
    if c == [] then "" else Join(Canonical(c), " > ")
  }

  lemma CanonicalSplit(c: seq<string>, x: seq<string>, m: string, y: seq<string>)
    requires c == x + [m] + y && m !in x && Least(c) == m
    ensures Canonical(c) == [m] + y + x
  {
    IndexOfSplit(x, m, y);
    assert c[|x|..] == [m] + y && c[..|x|] == x;
  }

  lemma HalvesSwapped(x: seq<string>, m: string, y: seq<string>, b: seq<string>)
    requires m !in x && m !in b
    requires Least((x + [m] + y) + b) == m && Least(b + (x + [m] + y)) == m
    ensures Canonical((x + [m] + y) + b) == Canonical(b + (x + [m] + y))
  {
    AppendAssociates(x + [m], y, b);
    AppendAssociates(b, x + [m], y);
    AppendAssociates(b, x, [m]);
    CanonicalSplit((x + [m] + y) + b, x, m, y + b);
    CanonicalSplit(b + (x + [m] + y), b + x, m, y);
    AppendAssociates([m], y, b);
    AppendAssociates([m] + y, b, x);
  }

  /** A sequence of distinct names, split around one of them that is not in a second sequence. */
  lemma SplitAt(a: seq<string>, b: seq<string>, m: string)
    requires Distinct(a + b) && m in a
    ensures var i := IndexOf(a, m); a == a[..i] + [m] + a[i + 1..] && m !in a[..i] && m !in b
  {
    hide IndexOf;
    var i := IndexOf(a, m);
    forall j | 0 <= j < |a + b| && j != i ensures (a + b)[j] != m {
      assert (a + b)[i] == m;
    }
    forall j | 0 <= j < |b| ensures b[j] != m {
      assert (a + b)[|a| + j] == b[j];
    }
    forall j | 0 <= j < i ensures a[j] != m {
      assert (a + b)[j] == a[j];
    }
  }

  lemma HalfWithLeast(a: seq<string>, b: seq<string>)
    requires Distinct(a + b) && a != [] && Least(a + b) in a && Least(a + b) == Least(b + a)
    ensures Canonical(a + b) == Canonical(b + a)
  {
    hide Least, Canonical, IndexOf;
    var m := Least(a + b);
    SplitAt(a, b, m);
    var i := IndexOf(a, m);
    HalvesSwapped(a[..i], m, a[i + 1..], b);
  }

  /** Two rotations of one cycle have the same canonical form. */
  lemma RotationsShareCanonical(a: seq<string>, b: seq<string>)
    requires a + b != [] && Distinct(a + b)
    ensures b + a != [] && Canonical(a + b) == Canonical(b + a)
  {
    hide Least, Canonical;
    assert forall x :: x in a + b <==> x in b + a;
    LeastIsUnique(a + b, b + a);
    if Least(a + b) in a {
      HalfWithLeast(a, b);
    } else {
      assert Distinct(b + a) by {
        forall i, j | 0 <= i < j < |b + a| ensures (b + a)[i] != (b + a)[j] {
          var at := (k: int) => if k < |b| then |a| + k else k - |b|;
          assert 0 <= at(i) < |a + b| && 0 <= at(j) < |a + b| && at(i) != at(j);
          assert (b + a)[i] == (a + b)[at(i)] && (b + a)[j] == (a + b)[at(j)];
        }
      }
      HalfWithLeast(b, a);
    }
  }

  /** A name that cannot be confused with the separator of a cycle key: wherever it has ` >`, something
      other than a space follows. */
  predicate IsPlain(n: string) {
    forall i :: 0 <= i < |n| - 1 && n[i] == ' ' && n[i + 1] == '>' ==> i + 2 < |n| && n[i + 2] != ' '
  }

  predicate PlainNames(c: seq<string>) {
    forall n :: n in c ==> IsPlain(n)
  }

  lemma SeparatorTooLate(x: string, r: string, y: string, s: string)
    requires IsPlain(y) && |x| < |y|
    ensures x + " > " + r != y + " > " + s
  {
    var left, right := x + " > " + r, y + " > " + s;
    assert left[|x|] == ' ' && left[|x| + 1] == '>' && left[|x| + 2] == ' ';
    if |x| + 1 < |y| {
      assert right[|x|] == y[|x|] && right[|x| + 1] == y[|x| + 1];
      if |x| + 2 < |y| {
        assert right[|x| + 2] == y[|x| + 2];
      }
    } else {
      assert right[|x| + 1] == ' ';
    }
  }

  lemma SeparatorPosition(x: string, r: string, y: string, s: string)
    requires IsPlain(x) && IsPlain(y) && x + " > " + r == y + " > " + s
    ensures x == y && r == s
  {
    if |x| < |y| {
      SeparatorTooLate(x, r, y, s);
    } else if |y| < |x| {
      SeparatorTooLate(y, s, x, r);
    }
    CutAtSeparator(x, r);
    CutAtSeparator(y, s);
  }

  lemma CutAtSeparator(x: string, r: string)
    ensures (x + " > " + r)[..|x|] == x && (x + " > " + r)[|x| + 3..] == r
  {
  }

  lemma JoinIsNotPlain(c: seq<string>)
    requires |c| >= 2
    ensures !IsPlain(Join(c, " > "))
  {
    var j, i := Join(c, " > "), |c[0]|;
    assert j == c[0] + " > " + Join(c[1..], " > ");
    assert j[i] == ' ' && j[i + 1] == '>' && j[i + 2] == ' ';
  }

  /** On plain names a key determines the node sequence it was joined from. */
  lemma {:induction false} JoinInjective(c: seq<string>, d: seq<string>)
    requires c != [] && d != [] && PlainNames(c) && PlainNames(d)
    requires Join(c, " > ") == Join(d, " > ")
    ensures c == d
  {
    hide IsPlain;
    if |c| >= 2 {
      JoinIsNotPlain(c);
    }
    if |d| >= 2 {
      JoinIsNotPlain(d);
    }
    if |c| > 1 && |d| > 1 {
      SeparatorPosition(c[0], Join(c[1..], " > "), d[0], Join(d[1..], " > "));
      JoinInjective(c[1..], d[1..]);
      assert c == [c[0]] + c[1..] && d == [d[0]] + d[1..];
    }
  }

  /** Without that restriction two different cycles can share a key. */
  lemma KeyCollision()
    ensures CycleKey(["a", "b > c"]) == CycleKey(["a > b", "c"])
    ensures !IsRotation(["a", "b > c"], ["a > b", "c"])
  {
    var c, d := ["a", "b > c"], ["a > b", "c"];
    assert Leq("a", "b > c") && !Leq("b > c", "a") && Leq("a > b", "c") && !Leq("c", "a > b");
    CanonicalSplit(c, [], "a", ["b > c"]);
    CanonicalSplit(d, [], "a > b", ["c"]);
    assert Join(["c"], " > ") == "c" && Join(["b > c"], " > ") == "b > c";
    assert ["a"] + ["b > c"] + [] == ["a", "b > c"] && ["a > b"] + ["c"] + [] == ["a > b", "c"];
    assert Join(["a", "b > c"], " > ") == "a" + " > " + Join(["a", "b > c"][1..], " > ");
    assert Join(["a > b", "c"], " > ") == "a > b" + " > " + Join(["a > b", "c"][1..], " > ");
    forall k | 0 <= k <= 2 ensures d != c[k..] + c[..k] {
      assert (c[k..] + c[..k])[0] == if k == 1 then "b > c" else "a";
    }
  }

  // ---------------------------------------------------------------- the depth-first search

  /** The edges of a cycle given without its repeated first node. */
  predicate OnLoop(c: seq<string>, a: string, b: string) {
    c != [] && ((c[|c| - 1] == a && c[0] == b) || UsesEdge(c, a, b))
  }

  lemma RotationKeepsLoop(c: seq<string>, k: nat, a: string, b: string)
    requires c != [] && k <= |c| && OnLoop(c, a, b)
    ensures OnLoop(c[k..] + c[..k], a, b)
  {
    var d := c[k..] + c[..k];
    if 0 < k < |c| {
      if UsesEdge(c, a, b) {
        var i :| 0 <= i < |c| - 1 && c[i] == a && c[i + 1] == b;
        if i + 1 == k {
          assert d[|d| - 1] == a && d[0] == b;
        } else {
          var j := if i < k then i + |c| - k else i - k;
          assert d[j] == a && d[j + 1] == b;
        }
      } else {
        var j := |c| - 1 - k;
        assert d[j] == a && d[j + 1] == b;
      }
    } else {
      assert d == c;
    }
  }

  lemma CanonicalKeepsLoop(c: seq<string>, a: string, b: string)
    requires c != []
    ensures OnLoop(c, a, b) <==> OnLoop(Canonical(c), a, b)
  {
    var first := IndexOf(c, Least(c));
    var d := c[first..] + c[..first];
    if OnLoop(c, a, b) {
      RotationKeepsLoop(c, first, a, b);
    }
    if OnLoop(d, a, b) {
      RotationKeepsLoop(d, |c| - first, a, b);
      assert d[|c| - first..] + d[..|c| - first] == c;
    }
  }

  /** `order` lists the finished nodes: each edge out of one leads to a node finished earlier,
      or closed a loop of the search. */
  ghost predicate FinishOrder(g: PackageGraph, order: seq<string>, closing: set<(string, string)>) {
    forall i, s :: 0 <= i < |order| && s in Successors(g, order[i]) ==>
      s in order[..i] || (order[i], s) in closing
  }

  /** What the reported paths are, and how the keys and the loop-closing edges relate to them. */
  ghost predicate Reported(g: PackageGraph, cycles: seq<seq<string>>, keys: set<string>,
                           closing: set<(string, string)>) {
    && (forall p :: p in cycles ==> IsReport(g, p))
    && keys == (set k | k in Keys(cycles))
    && Distinct(Keys(cycles))
    && (forall e :: e in closing ==> Covered(g, keys, e))
  }

  ghost predicate IsReport(g: PackageGraph, p: seq<string>) {
    IsCycle(g, p) && Distinct(Body(p))
  }

  function Keys(cycles: seq<seq<string>>): (keys: seq<string>)
    ensures |keys| == |cycles|
  {
    if cycles == [] then [] else Keys(cycles[..|cycles| - 1]) + [CycleKey(Body(cycles[|cycles| - 1]))]
  }

  lemma {:induction false} KeyAt(cycles: seq<seq<string>>, i: nat)
    requires i < |cycles|
    ensures Keys(cycles)[i] == CycleKey(Body(cycles[i]))
  {
    if i < |cycles| - 1 {
      KeyAt(cycles[..|cycles| - 1], i);
    }
  }

  ghost predicate Covered(g: PackageGraph, keys: set<string>, e: (string, string)) {
    exists c :: ClosedBy(g, c, e) && CycleKey(c) in keys
  }

  /** `c` is a loop of distinct nodes whose last edge is `e`. */
  ghost predicate ClosedBy(g: PackageGraph, c: seq<string>, e: (string, string)) {
    c != [] && Distinct(c) && IsCycle(g, c + [c[0]]) && c[|c| - 1] == e.0 && c[0] == e.1
  }

  /** A reported path without its repeated last node. */
  function Body(p: seq<string>): (c: seq<string>) {
    if |p| < 2 then p else p[..|p| - 1]
  }

  lemma StackLoop(g: PackageGraph, stack: seq<string>, node: string)
    requires Distinct(stack) && IsWalk(g, stack) && node in stack && Edge(g, stack[|stack| - 1], node)
    ensures ClosedBy(g, stack[IndexOf(stack, node)..], (stack[|stack| - 1], node))
  {
    var at := IndexOf(stack, node);
    var cycle := stack[at..];
    var path := cycle + [node];
    forall i | 0 <= i < |path| - 1 ensures Edge(g, path[i], path[i + 1]) {
      assert path[i] == stack[at + i];
      assert i + 1 < |cycle| ==> path[i + 1] == stack[at + i + 1];
    }
  }

  lemma ReportNew(g: PackageGraph, cycles: seq<seq<string>>, keys: set<string>,
                  closing: set<(string, string)>, c: seq<string>)
    requires Reported(g, cycles, keys, closing)
    requires c != [] && ClosedBy(g, c, (c[|c| - 1], c[0])) && CycleKey(c) !in keys
    ensures Reported(g, cycles + [c + [c[0]]], keys + {CycleKey(c)}, closing + {(c[|c| - 1], c[0])})
  {
    hide CycleKey;
    var path, key, e := c + [c[0]], CycleKey(c), (c[|c| - 1], c[0]);
    var after := cycles + [path];
    assert Body(path) == c;
    assert after[..|after| - 1] == cycles;
    assert Keys(after) == Keys(cycles) + [key];
    assert Covered(g, keys + {key}, e);
    forall e' | e' in closing ensures Covered(g, keys + {key}, e') {
      assert Covered(g, keys, e');
    }
  }

  lemma ReportKnown(g: PackageGraph, cycles: seq<seq<string>>, keys: set<string>,
                    closing: set<(string, string)>, c: seq<string>)
    requires Reported(g, cycles, keys, closing)
    requires c != [] && ClosedBy(g, c, (c[|c| - 1], c[0])) && CycleKey(c) in keys
    ensures Reported(g, cycles, keys, closing + {(c[|c| - 1], c[0])})
    ensures cycles != []
  {
    assert CycleKey(c) in Keys(cycles);
    assert Covered(g, keys, (c[|c| - 1], c[0]));
  }

  lemma MoreClosing(g: PackageGraph, order: seq<string>, closing: set<(string, string)>,
                    more: set<(string, string)>)
    requires FinishOrder(g, order, closing) && closing <= more
    ensures FinishOrder(g, order, more)
  {
  }

  /** The stack is a simple path of unfinished nodes. */
  ghost predicate OnPath(g: PackageGraph, stack: seq<string>, finished: set<string>, order: seq<string>) {
    && Distinct(stack) && IsWalk(g, stack)
    && (forall n :: n in stack ==> n in Universe(g))
    && finished == (set n | n in order)
    && (forall n :: n in stack ==> n !in order)
  }

  lemma Push(g: PackageGraph, stack: seq<string>, finished: set<string>, order: seq<string>, node: string)
    requires OnPath(g, stack, finished, order) && node in Universe(g) && node !in stack && node !in finished
    requires stack != [] ==> Edge(g, stack[|stack| - 1], node)
    ensures OnPath(g, stack + [node], finished, order)
  {
  }

  lemma Pop(g: PackageGraph, stack: seq<string>, finished: set<string>, order: seq<string>, node: string)
    requires OnPath(g, stack + [node], finished, order)
    ensures OnPath(g, stack, finished + {node}, order + [node])
    ensures finished == (set n | n in order)
  {
    var pushed := stack + [node];
    assert pushed[|stack|] == node;
    assert forall i :: 0 <= i < |stack| ==> pushed[i] == stack[i];
    assert node !in stack;
    forall i | 0 <= i < |stack| - 1 ensures Edge(g, stack[i], stack[i + 1]) {
      assert Edge(g, pushed[i], pushed[i + 1]);
    }
  }

  lemma Finish(g: PackageGraph, finished: set<string>, order: seq<string>, closing: set<(string, string)>,
               node: string)
    requires FinishOrder(g, order, closing) && finished == (set n | n in order)
    requires forall s :: s in Successors(g, node) ==> s in finished || (node, s) in closing
    ensures FinishOrder(g, order + [node], closing)
  {
    var after := order + [node];
    forall i, s | 0 <= i < |after| && s in Successors(g, after[i])
      ensures s in after[..i] || (after[i], s) in closing
    {
      assert after[..i] == order[..i];
      assert order[..|order|] == order;
    }
  }

  class CycleFinder {
    const graph: PackageGraph
    var cycles: seq<seq<string>>
    var seenCycleKeys: set<string>
    var finished: set<string>
    var stack: seq<string>
    ghost var order: seq<string>
    ghost var closing: set<(string, string)>

    ghost predicate Valid()
      reads this
    {
      && IsMap(graph)
      && OnPath(graph, stack, finished, order)
      && FinishOrder(graph, order, closing)
      && Reported(graph, cycles, seenCycleKeys, closing)
      && (closing != {} ==> cycles != [])
    }

    constructor (g: PackageGraph)
      requires IsMap(g)
      ensures Valid() && graph == g
      ensures cycles == [] && stack == [] && finished == {}
    {
      graph := g;
      cycles, seenCycleKeys, finished, stack, order, closing := [], {}, {}, [], [], {};
    }

    /** The branch of `visit` for a node found on the stack. */
    method CloseLoop(node: string)
      requires Valid() && node in stack && Edge(graph, stack[|stack| - 1], node)
      modifies this`cycles, this`seenCycleKeys, this`closing
      ensures Valid() && closing == old(closing) + {(stack[|stack| - 1], node)}
      ensures var cycle := stack[IndexOf(stack, node)..];
              cycles == if CycleKey(cycle) in old(seenCycleKeys) then old(cycles)
                        else old(cycles) + [cycle + [node]]
      ensures seenCycleKeys == old(seenCycleKeys) + {CycleKey(stack[IndexOf(stack, node)..])}
    {
      hide Reported, FinishOrder, CycleKey, IndexOf, Universe;
      var cycle := stack[IndexOf(stack, node)..];
      var key := CycleKey(cycle);
      StackLoop(graph, stack, node);
      if key !in seenCycleKeys {
        ReportNew(graph, cycles, seenCycleKeys, closing, cycle);
        seenCycleKeys := seenCycleKeys + {key};
        cycles := cycles + [cycle + [node]];
      } else {
        ReportKnown(graph, cycles, seenCycleKeys, closing, cycle);
      }
      MoreClosing(graph, order, closing, closing + {(stack[|stack| - 1], node)});
      closing := closing + {(stack[|stack| - 1], node)};
    }

    method Visit(node: string)
      requires Valid() && node in Universe(graph)
      requires stack != [] ==> Edge(graph, stack[|stack| - 1], node)
      modifies this`cycles, this`seenCycleKeys, this`finished, this`stack, this`order, this`closing
      ensures Valid() && stack == old(stack)
      ensures old(finished) <= finished && old(closing) <= closing && old(cycles) <= cycles
      ensures node in finished || (stack != [] && (stack[|stack| - 1], node) in closing)
      decreases Room(graph, stack)
    {
      hide Room, Reported, FinishOrder, Universe, OnPath, IsMap, CycleKey, IndexOf;
      if node in stack {
        CloseLoop(node);
        return;
      }
      if node in finished { return; }
      EnterNode(node);
      var targets := Successors(graph, node);
      for i := 0 to |targets|
        invariant Valid() && stack == old(stack) + [node]
        invariant old(finished) <= finished && old(closing) <= closing && old(cycles) <= cycles
        invariant forall t :: t in targets[..i] ==> t in finished || (node, t) in closing
      {
        SuccessorsInUniverse(graph, node);
        Visit(targets[i]);
      }
      assert targets[..|targets|] == targets;
      LeaveNode(node);
      assert stack == old(stack);
    }

    method EnterNode(node: string)
      requires Valid() && node in Universe(graph) && node !in stack && node !in finished
      requires stack != [] ==> Edge(graph, stack[|stack| - 1], node)
      modifies this`stack
      ensures Valid() && stack == old(stack) + [node]
      ensures Room(graph, stack) < Room(graph, old(stack))
    {
      Push(graph, stack, finished, order, node);
      LessRoom(graph, stack, node);
      stack := stack + [node];
    }

    method LeaveNode(node: string)
      requires Valid() && stack != [] && stack[|stack| - 1] == node
      requires forall t :: t in Successors(graph, node) ==> t in finished || (node, t) in closing
      modifies this`finished, this`stack, this`order
      ensures Valid() && stack == old(stack[..|stack| - 1]) && finished == old(finished) + {node}
    {
      assert stack == stack[..|stack| - 1] + [node];
      Pop(graph, stack[..|stack| - 1], finished, order, node);
      Finish(graph, finished, order, closing, node);
      hide FinishOrder, Reported, OnPath;
      stack := stack[..|stack| - 1];
      finished := finished + {node};
      order := order + [node];
    }
  }

  /** How many names the search can still put on its stack. */
  ghost function Room(g: PackageGraph, stack: seq<string>): nat {
    |Universe(g) - set n | n in stack|
  }

  lemma LessRoom(g: PackageGraph, stack: seq<string>, node: string)
    requires node in Universe(g) && node !in stack
    ensures Room(g, stack + [node]) < Room(g, stack)
  {
    var before, after := set n | n in stack, set n | n in stack + [node];
    assert after == before + {node};
    SubsetIsSmaller(Universe(g) - after, Universe(g) - before, node);
  }

  lemma SubsetIsSmaller(small: set<string>, big: set<string>, x: string)
    requires small <= big && x in big && x !in small
    ensures |small| < |big|
  {
    assert small <= big - {x};
    SubsetCardinality(small, big - {x});
  }

  lemma {:induction false} IndexOfInPrefix(c: seq<string>, k: nat, x: string)
    requires k <= |c| && x in c[..k]
    ensures x in c && IndexOf(c, x) < k
  {
    if c[0] != x {
      assert c[..k][1..] == c[1..][..k - 1];
      IndexOfInPrefix(c[1..], k - 1, x);
    }
  }

  /** A step of a cycle that no loop-closing edge accounts for goes to a node finished earlier. */
  lemma RankDrops(g: PackageGraph, order: seq<string>, closing: set<(string, string)>, p: seq<string>, i: nat)
    requires IsMap(g) && FinishOrder(g, order, closing) && forall n :: n in g.nodes ==> n in order
    requires IsWalk(g, p) && i < |p| - 1 && (p[i], p[i + 1]) !in closing
    ensures p[i] in order && p[i + 1] in order && IndexOf(order, p[i + 1]) < IndexOf(order, p[i])
  {
    hide IndexOf, IsMap;
    assert Edge(g, p[i], p[i + 1]);
    assert p[i] in g.nodes by { TargetsAreNodes(g); }
    var at := IndexOf(order, p[i]);
    IndexOfInPrefix(order, at, p[i + 1]);
  }

  lemma TargetsAreNodes(g: PackageGraph)
    requires IsMap(g)
    ensures forall n :: n in g.targets ==> n in g.nodes
  {
  }

  lemma {:induction false} RankDropsTo(g: PackageGraph, order: seq<string>, closing: set<(string, string)>,
                                       p: seq<string>, i: nat)
    requires IsMap(g) && FinishOrder(g, order, closing) && forall n :: n in g.nodes ==> n in order
    requires IsWalk(g, p) && 0 < i < |p|
    requires forall j :: 0 <= j < |p| - 1 ==> (p[j], p[j + 1]) !in closing
    ensures p[0] in order && p[i] in order && IndexOf(order, p[i]) < IndexOf(order, p[0])
  {
    hide IndexOf, IsMap, FinishOrder, IsWalk;
    if i > 1 {
      RankDropsTo(g, order, closing, p, i - 1);
    }
    RankDrops(g, order, closing, p, i - 1);
  }

  /** Once every node is finished, each cycle contains an edge that closed a loop of the search. */
  lemma EveryCycleCloses(g: PackageGraph, order: seq<string>, closing: set<(string, string)>, p: seq<string>)
    requires IsMap(g) && FinishOrder(g, order, closing) && forall n :: n in g.nodes ==> n in order
    requires IsCycle(g, p)
    ensures exists j :: 0 <= j < |p| - 1 && (p[j], p[j + 1]) in closing
  {
    hide IndexOf, IsMap, FinishOrder, IsWalk;
    if forall j :: 0 <= j < |p| - 1 ==> (p[j], p[j + 1]) !in closing {
      RankDropsTo(g, order, closing, p, |p| - 1);
      assert false;
    }
  }

  ghost predicate SharesEdge(p: seq<string>, q: seq<string>) {
    exists i :: 0 <= i < |p| - 1 && UsesEdge(q, p[i], p[i + 1])
  }

  lemma ReportUsesClosingEdge(g: PackageGraph, cycles: seq<seq<string>>, keys: set<string>,
                              closing: set<(string, string)>, e: (string, string)) returns (r: seq<string>)
    requires IsMap(g) && PlainNames(g.nodes) && Reported(g, cycles, keys, closing) && e in closing
    ensures r in cycles && UsesEdge(r, e.0, e.1)
  {
    hide CycleKey, IsMap, IsWalk, Keys, PlainNames, OnLoop;
    assert Covered(g, keys, e);
    var c :| ClosedBy(g, c, e) && CycleKey(c) in keys;
    assert CycleKey(c) in Keys(cycles);
    var i :| 0 <= i < |cycles| && Keys(cycles)[i] == CycleKey(c);
    KeyAt(cycles, i);
    r := cycles[i];
    assert IsReport(g, r);
    var d := Body(r);
    assert r == d + [d[0]];
    SameKeySameLoop(g, c, d, e.0, e.1);
    LoopEdgeOnPath(d, e.0, e.1);
  }

  lemma LoopEdgeOnPath(d: seq<string>, a: string, b: string)
    requires OnLoop(d, a, b)
    ensures UsesEdge(d + [d[0]], a, b)
  {
    var r := d + [d[0]];
    if UsesEdge(d, a, b) {
      var k :| 0 <= k < |d| - 1 && d[k] == a && d[k + 1] == b;
      assert r[k] == a && r[k + 1] == b;
    } else {
      assert r[|d| - 1] == a && r[|d|] == b;
    }
  }

  lemma SameKeySameLoop(g: PackageGraph, c: seq<string>, d: seq<string>, a: string, b: string)
    requires IsMap(g) && PlainNames(g.nodes) && c != [] && d != []
    requires IsCycle(g, c + [c[0]]) && IsCycle(g, d + [d[0]])
    requires CycleKey(c) == CycleKey(d) && c[|c| - 1] == a && c[0] == b
    ensures OnLoop(d, a, b)
  {
    hide Least, IndexOf, Join;
    CycleNodesAreKeys(g, c);
    CycleNodesAreKeys(g, d);
    JoinInjective(Canonical(c), Canonical(d));
    CanonicalKeepsLoop(c, a, b);
    CanonicalKeepsLoop(d, a, b);
  }

  lemma CycleNodesAreKeys(g: PackageGraph, c: seq<string>)
    requires IsMap(g) && PlainNames(g.nodes) && c != [] && IsCycle(g, c + [c[0]])
    ensures Canonical(c) != [] && PlainNames(Canonical(c))
  {
    hide Least, IndexOf;
    hide IsPlain;
    forall n | n in Canonical(c) ensures IsPlain(n) {
      var p := c + [c[0]];
      var i :| 0 <= i < |c| && c[i] == n;
      assert Edge(g, p[i], p[i + 1]);
    }
  }

  ghost predicate HaveDistinctKeys(cycles: seq<seq<string>>) {
    forall i, j :: 0 <= i < j < |cycles| ==> CycleKey(Body(cycles[i])) != CycleKey(Body(cycles[j]))
  }

  lemma KeysDiffer(g: PackageGraph, cycles: seq<seq<string>>, keys: set<string>, closing: set<(string, string)>)
    requires Reported(g, cycles, keys, closing)
    ensures HaveDistinctKeys(cycles)
  {
    hide CycleKey, IsReport, Covered, Keys, Body;
    forall i, j | 0 <= i < j < |cycles| ensures CycleKey(Body(cycles[i])) != CycleKey(Body(cycles[j])) {
      KeyAt(cycles, i);
      KeyAt(cycles, j);
      assert Keys(cycles)[i] != Keys(cycles)[j];
    }
  }

  lemma ReportsAreNoRotations(g: PackageGraph, cycles: seq<seq<string>>, keys: set<string>,
                              closing: set<(string, string)>, i: nat, j: nat)
    requires Reported(g, cycles, keys, closing) && i < j < |cycles|
    ensures !IsRotation(Body(cycles[i]), Body(cycles[j]))
  {
    var c, d := Body(cycles[i]), Body(cycles[j]);
    assert IsReport(g, cycles[i]);
    KeyAt(cycles, i);
    KeyAt(cycles, j);
    assert Keys(cycles)[i] != Keys(cycles)[j];
    assert c != [] && Distinct(c);
    hide *;
    RotatedKey(c, d);
  }

  /** Rotations of one cycle have one key. */
  lemma RotatedKey(c: seq<string>, d: seq<string>)
    requires c != [] && Distinct(c)
    ensures IsRotation(c, d) ==> CycleKey(c) == CycleKey(d)
  {
    hide Least, IndexOf, Canonical, Join;
    if IsRotation(c, d) {
      var k :| 0 <= k <= |c| && d == c[k..] + c[..k];
      assert c == c[..k] + c[k..];
      RotationsShareCanonical(c[..k], c[k..]);
    }
  }

  /** What a finished search knows about one cycle of the graph. */
  lemma CycleIsReported(g: PackageGraph, cycles: seq<seq<string>>, keys: set<string>, order: seq<string>,
                        closing: set<(string, string)>, p: seq<string>)
    requires IsMap(g) && FinishOrder(g, order, closing) && forall n :: n in g.nodes ==> n in order
    requires Reported(g, cycles, keys, closing) && IsCycle(g, p)
    ensures closing != {}
    ensures PlainNames(g.nodes) ==> exists r :: r in cycles && SharesEdge(p, r)
  {
    hide Reported, IsMap, FinishOrder, IsWalk, PlainNames;
    EveryCycleCloses(g, order, closing, p);
    var j :| 0 <= j < |p| - 1 && (p[j], p[j + 1]) in closing;
    if PlainNames(g.nodes) {
      var r := ReportUsesClosingEdge(g, cycles, keys, closing, (p[j], p[j + 1]));
      assert SharesEdge(p, r);
    }
  }

  /** Reports a cycle exactly when there is one. What it reports are cycles, each node at most once,
      no two of them with one key, and so no two rotations of each other; and when all names are plain,
      every cycle of the graph runs over an edge of a reported one, so cutting the reported cycles leaves
      none. */
  method FindCycles(graph: PackageGraph) returns (cycles: seq<seq<string>>)
    requires IsMap(graph)
    ensures cycles == [] <==> forall p :: !IsCycle(graph, p)
    ensures forall r :: r in cycles ==> IsReport(graph, r)
    ensures HaveDistinctKeys(cycles)
    ensures forall i, j :: 0 <= i < j < |cycles| ==> !IsRotation(Body(cycles[i]), Body(cycles[j]))
    ensures PlainNames(graph.nodes) ==>
      forall p :: IsCycle(graph, p) ==> exists r :: r in cycles && SharesEdge(p, r)
  {
    hide IsWalk, PlainNames, Body, Distinct, Targets, Keys, Covered, CycleKey;
    var finder := new CycleFinder(graph);
    for i := 0 to |graph.nodes|
      invariant finder.Valid() && finder.graph == graph && finder.stack == []
      invariant forall j :: 0 <= j < i ==> graph.nodes[j] in finder.finished
    {
      hide Reported, FinishOrder, OnPath;
      assert graph.nodes[i] in Universe(graph);
      finder.Visit(graph.nodes[i]);
    }
    cycles := finder.cycles;
    ghost var keys, order, closing := finder.seenCycleKeys, finder.order, finder.closing;
    assert forall r :: r in cycles ==> IsReport(graph, r);
    KeysDiffer(graph, cycles, keys, closing);
    hide Reported, FinishOrder, IsMap, HaveDistinctKeys;
    forall p | IsCycle(graph, p)
      ensures cycles != [] && (PlainNames(graph.nodes) ==> exists r :: r in cycles && SharesEdge(p, r))
    {
      CycleIsReported(graph, cycles, keys, order, closing, p);
    }
    if cycles != [] {
      assert IsReport(graph, cycles[0]);
    }
    forall i, j | 0 <= i < j < |cycles| ensures !IsRotation(Body(cycles[i]), Body(cycles[j])) {
      ReportsAreNoRotations(graph, cycles, keys, closing, i, j);
    }
  }

  // ---------------------------------------------------------------- a report that is dropped

  /** Two separate loops, of packages named to share a key. */
  const CROSSED := PackageGraph(
    ["a", "b > c", "a > b", "c"],
    map["a" := ["b > c"], "b > c" := ["a"], "a > b" := ["c"], "c" := ["a > b"]])

  lemma LoopsOfCrossed(r: seq<string>)
    requires IsReport(CROSSED, r)
    ensures r in [["a", "b > c", "a"], ["b > c", "a", "b > c"], ["a > b", "c", "a > b"], ["c", "a > b", "c"]]
  {
    assert forall i :: 0 <= i < |r| - 1 ==> Body(r)[i] == r[i];
    assert Edge(CROSSED, r[0], r[1]);
    assert r[1] != r[0];
    assert Edge(CROSSED, r[1], r[2]);
    assert r[2] == r[0];
    assert r == [r[0], r[1], r[0]];
  }

  lemma LoopsShareKey(r: seq<string>)
    requires IsReport(CROSSED, r)
    ensures CycleKey(Body(r)) == CycleKey(["a", "b > c"])
  {
    LoopsOfCrossed(r);
    assert Body(r) == [r[0], r[1]];
    hide *;
    KeyCollision();
    SwappedKey("a", "b > c");
    SwappedKey("a > b", "c");
  }

  lemma SwappedKey(x: string, y: string)
    requires x != y
    ensures CycleKey([y, x]) == CycleKey([x, y])
  {
    assert [x] + [y] == [x, y] && [y] + [x] == [y, x];
    hide Canonical, Join;
    RotationsShareCanonical([x], [y]);
  }

  /** Of these two loops any result of `FindCycles` reports only one; the other has no edge on it. */
  lemma CollisionDropsReport(cycles: seq<seq<string>>)
    requires cycles == [] <==> forall p :: !IsCycle(CROSSED, p)
    requires (forall r :: r in cycles ==> IsReport(CROSSED, r)) && HaveDistinctKeys(cycles)
    ensures IsMap(CROSSED) && |cycles| == 1
    ensures exists p :: IsCycle(CROSSED, p) && !SharesEdge(p, cycles[0])
  {
    if |cycles| > 1 {
      assert CycleKey(Body(cycles[0])) != CycleKey(Body(cycles[1]));
    }
    hide *;
    CrossedIsMap();
    var p, q := LoopsAreCycles();
    assert cycles[0] in cycles;
    if |cycles| > 1 {
      assert cycles[1] in cycles;
      LoopsShareKey(cycles[0]);
      LoopsShareKey(cycles[1]);
    }
    var other := OtherLoop(cycles[0]);
  }

  lemma CrossedIsMap()
    ensures IsMap(CROSSED)
  {
  }

  lemma LoopsAreCycles() returns (p: seq<string>, q: seq<string>)
    ensures p == ["a", "b > c", "a"] && q == ["a > b", "c", "a > b"]
    ensures IsCycle(CROSSED, p) && IsCycle(CROSSED, q)
  {
    p, q := ["a", "b > c", "a"], ["a > b", "c", "a > b"];
  }

  lemma OtherLoop(r: seq<string>) returns (p: seq<string>)
    requires IsReport(CROSSED, r)
    ensures IsCycle(CROSSED, p) && !SharesEdge(p, r)
  {
    LoopsOfCrossed(r);
    hide IsReport, IsCycle;
    var l, m := LoopsAreCycles();
    p := if r[0] == "a" || r[0] == "b > c" then m else l;
    assert p[0] !in r && p[1] !in r;
  }
}
