/** Start order of compose services: the depth-first topological sort of
    internal/docker/compose.go (ResolveStartOrder, parseDependsOn, topologicalSort). */
module StartOrder {
  import opened Collections

  type Name = string

  /** For every service, the set of services it names in depends_on. */
  type Graph = map<Name, set<Name>>

  datatype Result = Sorted(order: seq<Name>) | Circular(at: Name)

  /** The shapes depends_on can have once the YAML is decoded. List items that
      are not strings are skipped by the program. */
  datatype DependsOn = Absent | ListForm(items: seq<Item>) | MapForm(names: set<Name>)
  datatype Item = Str(name: Name) | NotAString

  // ---- Specification -------------------------------------------------------

  ghost predicate Edge(g: Graph, a: Name, b: Name) {
    a in g && b in g[a]
  }

  ghost predicate Walk(g: Graph, p: seq<Name>) {
    forall i :: 0 <= i < |p| - 1 ==> Edge(g, p[i], p[i + 1])
  }

  ghost predicate Cycle(g: Graph, p: seq<Name>) {
    |p| >= 2 && Walk(g, p) && p[0] == p[|p| - 1]
  }

  ghost predicate OnCycle(g: Graph, n: Name) {
    exists p :: Cycle(g, p) && p[0] == n
  }

  ghost predicate Acyclic(g: Graph) {
    forall n :: !OnCycle(g, n)
  }

  /** Every service declared or named as a dependency. */
  ghost function Nodes(g: Graph): set<Name> {
    g.Keys + set k, d | k in g && d in g[k] :: d
  }

  ghost predicate DependenciesFirst(g: Graph, order: seq<Name>) {
    forall i, d :: 0 <= i < |order| && Edge(g, order[i], d) ==> d in order[..i]
  }

  ghost predicate IsStartOrder(g: Graph, order: seq<Name>) {
    && Distinct(order)
    && (forall n :: n in order <==> n in Nodes(g))
    && DependenciesFirst(g, order)
  }

  function GraphOf(deps: map<Name, seq<Name>>): Graph {
    map k | k in deps :: Elements(deps[k])
  }

  function DirectDependencies(d: DependsOn): set<Name> {
    match d
    case Absent => {}
    case ListForm(items) => set i | i in items && i.Str? :: i.name
    case MapForm(names) => names
  }

  // ---- A start order exists only for acyclic graphs ------------------------

  /** Along a walk, positions in a start order strictly decrease. */
  lemma {:induction false} WalkDescends(g: Graph, order: seq<Name>, p: seq<Name>) returns (first: nat, last: nat)
    requires IsStartOrder(g, order)
    requires |p| >= 2 && Walk(g, p)
    ensures last < first < |order| && order[first] == p[0] && order[last] == p[|p| - 1]
    decreases |p|
  {
    assert Edge(g, p[0], p[1]);
    assert p[0] in Nodes(g);
    first :| 0 <= first < |order| && order[first] == p[0];
    assert p[1] in order[..first];
    var next :| 0 <= next < first && order[next] == p[1];
    if |p| == 2 {
      last := next;
    } else {
      var rest := p[1..];
      forall i | 0 <= i < |rest| - 1 ensures Edge(g, rest[i], rest[i + 1]) {
        assert Edge(g, p[i + 1], p[i + 1 + 1]);
      }
      var first';
      first', last := WalkDescends(g, order, rest);
      assert first' == next;
    }
  }

  lemma StartOrderImpliesAcyclic(g: Graph, order: seq<Name>)
    requires IsStartOrder(g, order)
    ensures Acyclic(g)
  {
    forall n ensures !OnCycle(g, n) {
      if OnCycle(g, n) {
        var p :| Cycle(g, p) && p[0] == n;
        var first, last := WalkDescends(g, order, p);
      }
    }
  }

  /** Closing the stack at a node that is already on it gives a real cycle. */
  lemma StackClosesCycle(g: Graph, path: seq<Name>, node: Name)
    requires Walk(g, path + [node]) && node in path
    ensures OnCycle(g, node)
  {
    var i :| 0 <= i < |path| && path[i] == node;
    var whole := path + [node];
    var c := whole[i..];
    forall j | 0 <= j < |c| - 1 ensures Edge(g, c[j], c[j + 1]) {
      assert c[j] == whole[i + j] && c[j + 1] == whole[i + j + 1];
    }
    assert Cycle(g, c) && c[0] == node;
  }

  /** Whatever the iteration orders, two runs on the same graph agree on success. */
  lemma OutcomeIsDetermined(g: Graph, r: Result, s: Result)
    requires r.Sorted? ==> IsStartOrder(g, r.order)
    requires r.Circular? ==> OnCycle(g, r.at)
    requires s.Sorted? ==> IsStartOrder(g, s.order)
    requires s.Circular? ==> OnCycle(g, s.at)
    ensures r.Sorted? <==> s.Sorted?
    ensures r.Sorted? ==> Elements(r.order) == Elements(s.order) && |r.order| == |s.order|
  {
    if r.Sorted? { StartOrderImpliesAcyclic(g, r.order); }
    if s.Sorted? { StartOrderImpliesAcyclic(g, s.order); }
    if r.Sorted? && s.Sorted? {
      DistinctCount(r.order);
      DistinctCount(s.order);
      assert Elements(r.order) == Nodes(g) == Elements(s.order);
    }
  }

  // ---- The sort itself -----------------------------------------------------

  /** Finishing a node whose dependencies are all listed keeps the order good. */
  lemma FinishNode(g: Graph, order: seq<Name>, node: Name)
    requires Distinct(order) && DependenciesFirst(g, order) && node !in order
    requires forall d :: Edge(g, node, d) ==> d in order
    ensures Distinct(order + [node]) && DependenciesFirst(g, order + [node])
    ensures Elements(order + [node]) == Elements(order) + {node}
  {
    var next := order + [node];
    forall i, d | 0 <= i < |next| && Edge(g, next[i], d) ensures d in next[..i] {
      if i < |order| {
        assert next[..i] == order[..i];
      } else {
        assert next[..i] == order;
      }
    }
  }

  class Sorter {
    const deps: map<Name, seq<Name>>
    var visited: set<Name>
    var inStack: set<Name>
    var order: seq<Name>

    ghost predicate Valid()
      reads this
    {
      && Distinct(order)
      && visited == Elements(order)
      && DependenciesFirst(GraphOf(deps), order)
      && visited <= Nodes(GraphOf(deps))
      && visited !! inStack
    }

    constructor (deps: map<Name, seq<Name>>)
      ensures Valid() && this.deps == deps && inStack == {} && order == []
    {
      this.deps := deps;
      visited, inStack, order := {}, {}, [];
    }

    /** Visits node; path is the chain of services on the recursion stack. */
    method Visit(node: Name, ghost path: seq<Name>) returns (err: Option<Name>)
      requires Valid() && node in Nodes(GraphOf(deps))
      requires inStack == Elements(path) && inStack <= Nodes(GraphOf(deps))
      requires Walk(GraphOf(deps), path + [node])
      modifies this
      ensures err.None? ==> Valid() && inStack == old(inStack) && old(order) <= order && node in order
      ensures err.Some? ==> OnCycle(GraphOf(deps), err.value)
      decreases Nodes(GraphOf(deps)) - inStack
    {
      ghost var g := GraphOf(deps);
      if node in inStack {
        StackClosesCycle(g, path, node);
        return Some(node);
      }
      if node in visited {
        return None;
      }
      inStack := inStack + {node};
      ghost var path' := path + [node];
      assert Nodes(g) - inStack < Nodes(g) - old(inStack);
      assert inStack == Elements(path');
      var children := if node in deps then deps[node] else [];
      assert forall d :: d in children <==> Edge(g, node, d);
      var i := 0;
      while i < |children|
        invariant 0 <= i <= |children|
        invariant Valid() && inStack == old(inStack) + {node}
        invariant old(order) <= order
        invariant forall k :: 0 <= k < i ==> children[k] in order
      {
        var child := children[i];
        assert Edge(g, node, child);
        assert child in Nodes(g);
        WalkExtends(g, path', child);
        err := Visit(child, path');
        if err.Some? {
          return err;
        }
        i := i + 1;
      }
      assert node !in visited;
      FinishNode(g, order, node);
      inStack := inStack - {node};
      visited := visited + {node};
      order := order + [node];
      return None;
    }
  }

  lemma WalkExtends(g: Graph, path: seq<Name>, child: Name)
    requires path != [] && Walk(g, path) && Edge(g, path[|path| - 1], child)
    ensures Walk(g, path + [child])
  {
  }

  /** Sorts deps; the outer range over the map visits keys in any order. */
  method TopologicalSort(deps: map<Name, seq<Name>>) returns (r: Result)
    ensures r.Sorted? ==> IsStartOrder(GraphOf(deps), r.order)
    ensures r.Circular? ==> OnCycle(GraphOf(deps), r.at)
    ensures r.Sorted? <==> Acyclic(GraphOf(deps))
  {
    ghost var g := GraphOf(deps);
    var s := new Sorter(deps);
    var todo := deps.Keys;
    while todo != {}
      invariant s.Valid() && s.deps == deps && s.inStack == {}
      invariant todo <= deps.Keys
      invariant forall n :: n in deps && n !in todo ==> n in s.order
    {
      var name :| name in todo;
      todo := todo - {name};
      assert name in g;
      var err := s.Visit(name, []);
      if err.Some? {
        return Circular(err.value);
      }
    }
    r := Sorted(s.order);
    assert forall n :: n in Nodes(g) ==> n in s.order by {
      forall n | n in Nodes(g) ensures n in s.order {
        if n !in g {
          var k :| k in g && n in g[k];
          assert k in s.order;
          var i :| 0 <= i < |s.order| && s.order[i] == k;
          assert Edge(g, s.order[i], n);
          assert n in s.order[..i];
        }
      }
    }
    assert forall n :: n in s.order ==> n in s.visited;
    StartOrderImpliesAcyclic(g, s.order);
  }

  lemma DependencyIff(d: DependsOn, n: Name)
    ensures n in DirectDependencies(d) <==> (d.MapForm? && n in d.names) || (d.ListForm? && Str(n) in d.items)
  {
    if d.ListForm? && n in DirectDependencies(d) {
      var i :| i in d.items && i.Str? && i.name == n;
      assert i == Str(n);
    }
  }

  method ParseDependsOn(d: DependsOn) returns (names: seq<Name>)
    ensures Elements(names) == DirectDependencies(d)
    ensures forall n :: n in names <==> (d.MapForm? && n in d.names) || (d.ListForm? && Str(n) in d.items)
  {
    forall n ensures n in DirectDependencies(d) <==> (d.MapForm? && n in d.names) || (d.ListForm? && Str(n) in d.items) {
      DependencyIff(d, n);
    }
    match d
    case Absent => names := [];
    case ListForm(items) =>
      names := [];
      for i := 0 to |items|
        invariant Elements(names) == DirectDependencies(ListForm(items[..i]))
      {
        ghost var before := names;
        DirectDependenciesStep(items, i);
        if items[i].Str? {
          names := names + [items[i].name];
          assert Elements(names) == Elements(before) + {items[i].name};
        }
      }
      assert items[..|items|] == items;
    case MapForm(all) =>
      names := [];
      var todo := all;
      while todo != {}
        invariant todo <= all && Elements(names) == all - todo
      {
        var name :| name in todo;
        todo := todo - {name};
        ghost var before := names;
        names := names + [name];
        assert Elements(names) == Elements(before) + {name};
      }
  }

  lemma DirectDependenciesStep(items: seq<Item>, i: nat)
    requires i < |items|
    ensures DirectDependencies(ListForm(items[..i + 1])) ==
            DirectDependencies(ListForm(items[..i])) + (if items[i].Str? then {items[i].name} else {})
  {
    assert items[..i + 1] == items[..i] + [items[i]];
  }

  function ServiceGraph(services: map<Name, DependsOn>): Graph {
    map k | k in services :: DirectDependencies(services[k])
  }

  /** The edges of the graph are the names in depends_on: the keys of a mapping, or the
      strings of a list. */
  lemma ServiceEdgeIff(services: map<Name, DependsOn>, a: Name, b: Name)
    ensures Edge(ServiceGraph(services), a, b) <==>
            && a in services
            && ((services[a].MapForm? && b in services[a].names) || (services[a].ListForm? && Str(b) in services[a].items))
    ensures a in ServiceGraph(services) <==> a in services
  {
    if a in services { DependencyIff(services[a], b); }
  }

  /** What a start order of the service graph says of the services themselves. */
  lemma OrderInFull(services: map<Name, DependsOn>, order: seq<Name>)
    requires IsStartOrder(ServiceGraph(services), order)
    ensures forall i, j :: 0 <= i < j < |order| ==> order[i] != order[j]
    ensures forall n :: n in order <==>
              || n in services
              || (exists k :: k in services && services[k].MapForm? && n in services[k].names)
              || (exists k :: k in services && services[k].ListForm? && Str(n) in services[k].items)
    ensures forall i, n :: 0 <= i < |order| && order[i] in services
              && ((services[order[i]].MapForm? && n in services[order[i]].names)
                  || (services[order[i]].ListForm? && Str(n) in services[order[i]].items))
              ==> n in order[..i]
  {
    forall n ensures n in order <==>
              || n in services
              || (exists k :: k in services && services[k].MapForm? && n in services[k].names)
              || (exists k :: k in services && services[k].ListForm? && Str(n) in services[k].items)
    {
      NodeIff(services, n);
    }
    forall i, n | 0 <= i < |order| && Edge(ServiceGraph(services), order[i], n) ensures n in order[..i] {
    }
    forall i, n | 0 <= i < |order| && order[i] in services
              && ((services[order[i]].MapForm? && n in services[order[i]].names)
                  || (services[order[i]].ListForm? && Str(n) in services[order[i]].items))
      ensures n in order[..i]
    {
      ServiceEdgeIff(services, order[i], n);
    }
  }

  lemma NodeIff(services: map<Name, DependsOn>, n: Name)
    ensures n in Nodes(ServiceGraph(services)) <==>
              || n in services
              || (exists k :: k in services && services[k].MapForm? && n in services[k].names)
              || (exists k :: k in services && services[k].ListForm? && Str(n) in services[k].items)
  {
    var g := ServiceGraph(services);
    if n in Nodes(g) && n !in services {
      var k :| k in g && n in g[k];
      ServiceEdgeIff(services, k, n);
    }
    forall k | k in services ensures Edge(g, k, n) ==> n in Nodes(g) {
      ServiceEdgeIff(services, k, n);
    }
    forall k | k in services && ((services[k].MapForm? && n in services[k].names) || (services[k].ListForm? && Str(n) in services[k].items))
      ensures n in Nodes(g)
    {
      ServiceEdgeIff(services, k, n);
      assert k in g && n in g[k];
    }
  }

  /** Start order of the services of a compose file: it exists exactly when the
      declared dependencies are acyclic, and an error names a service on a cycle. */
  method ResolveStartOrder(services: map<Name, DependsOn>) returns (r: Result)
    ensures r.Sorted? ==> IsStartOrder(ServiceGraph(services), r.order)
    ensures r.Circular? ==> OnCycle(ServiceGraph(services), r.at)
    ensures r.Sorted? <==> Acyclic(ServiceGraph(services))
    ensures r.Sorted? ==> forall n :: n in r.order <==>
              || n in services
              || (exists k :: k in services && services[k].MapForm? && n in services[k].names)
              || (exists k :: k in services && services[k].ListForm? && Str(n) in services[k].items)
    ensures r.Sorted? ==>
              forall i, n :: 0 <= i < |r.order| && r.order[i] in services
                && ((services[r.order[i]].MapForm? && n in services[r.order[i]].names)
                    || (services[r.order[i]].ListForm? && Str(n) in services[r.order[i]].items))
                ==> n in r.order[..i]
  {
    var deps: map<Name, seq<Name>> := map[];
    var todo := services.Keys;
    while todo != {}
      invariant todo <= services.Keys && deps.Keys == services.Keys - todo
      invariant forall k :: k in deps ==> Elements(deps[k]) == DirectDependencies(services[k])
    {
      var name :| name in todo;
      todo := todo - {name};
      var names := ParseDependsOn(services[name]);
      deps := deps[name := names];
    }
    assert GraphOf(deps) == ServiceGraph(services);
    r := TopologicalSort(deps);
    if r.Sorted? { OrderInFull(services, r.order); }
  }
}
