/**
 document-ledger.ts, lines 584-621: the depth-first search that looks for a cycle
 among the section dependencies of a template.

 A returned list is a real closed path of declared dependencies; when none is
 returned there is no cycle, and the order in which sections were finished is the
 evidence: every dependency of a section was finished before it.
 */
module DependencyCycle {
  import opened Texts

  datatype Section = Section(key: Text, dependsOn: seq<Text>)

  datatype Search = NoCycle | Cycle(path: seq<Text>)

  type Graph = map<Text, seq<Text>>

  // ----- the declared graph -----

  /** `new Map(...)`: a repeated key keeps its first place and takes its last dependencies. */
  function GraphOf(sections: seq<Section>): Graph {
    if sections == [] then map[]
    else
      var last := sections[|sections| - 1];
      GraphOf(sections[..|sections| - 1])[last.key := last.dependsOn]
  }

  function KeysOf(sections: seq<Section>): (r: seq<Text>)
    ensures forall k :: k in r <==> k in GraphOf(sections)
  {
    if sections == [] then []
    else
      var front, last := KeysOf(sections[..|sections| - 1]), sections[|sections| - 1];
      if last.key in front then front else front + [last.key]
  }

  predicate IsLastWith(sections: seq<Section>, i: nat, key: Text) {
    i < |sections| && sections[i].key == key && forall j :: i < j < |sections| ==> sections[j].key != key
  }

  /** The declared keys are those of the sections, and a key depends on what the last section with it declares. */
  lemma {:induction false} GraphExactly(sections: seq<Section>, key: Text, dependencies: seq<Text>)
    ensures key in GraphOf(sections) && GraphOf(sections)[key] == dependencies
       <==> exists i: nat :: IsLastWith(sections, i, key) && sections[i].dependsOn == dependencies
  {
    if sections != [] {
      var n := |sections| - 1;
      var front := sections[..n];
      GraphExactly(front, key, dependencies);
      if sections[n].key == key {
        assert IsLastWith(sections, n, key);
        assert forall i: nat :: IsLastWith(sections, i, key) ==> i == n;
      } else {
        assert forall i: nat :: IsLastWith(sections, i, key) <==> IsLastWith(front, i, key);
      }
    }
  }

  /** A dependency between two declared sections. */
  predicate Edge(graph: Graph, a: Text, b: Text) {
    a in graph && b in graph && b in graph[a]
  }

  predicate IsPath(graph: Graph, p: seq<Text>) {
    forall i :: 0 <= i < |p| - 1 ==> Edge(graph, p[i], p[i + 1])
  }

  /** A closed path through at least one dependency. */
  predicate IsCycle(graph: Graph, c: seq<Text>) {
    |c| >= 2 && c[0] == c[|c| - 1] && IsPath(graph, c)
  }

  ghost predicate IsAcyclic(graph: Graph) {
    forall c :: !IsCycle(graph, c)
  }

  // ----- a finish order rules cycles out -----

  /** Every dependency of a listed section is listed before it. */
  predicate IsFinishOrder(graph: Graph, order: seq<Text>) {
    && NoRepeats(order)
    && forall i :: 0 <= i < |order| ==> order[i] in graph && DependenciesAreIn(graph, order[i], order[..i])
  }

  predicate DependenciesAreIn(graph: Graph, key: Text, before: seq<Text>)
    requires key in graph
  {
    forall d :: d in graph[key] && d in graph ==> d in before
  }

  lemma {:induction false} PathsDescend(graph: Graph, order: seq<Text>, k: nat, p: seq<Text>)
    requires IsFinishOrder(graph, order) && k < |order|
    requires IsPath(graph, p) && |p| >= 2 && p[0] == order[k]
    ensures p[|p| - 1] in order[..k]
    decreases |p|
  {
    assert Edge(graph, p[0], p[1]);
    var j :| 0 <= j < k && order[j] == p[1];
    if |p| > 2 {
      var rest := p[1..];
      forall i | 0 <= i < |rest| - 1 ensures Edge(graph, rest[i], rest[i + 1]) {
        assert Edge(graph, p[i + 1], p[i + 1 + 1]);
      }
      PathsDescend(graph, order, j, rest);
    }
  }

  lemma {:induction false} FinishOrderGrows(graph: Graph, order: seq<Text>, key: Text)
    requires IsFinishOrder(graph, order) && key in graph && key !in order && DependenciesAreIn(graph, key, order)
    ensures IsFinishOrder(graph, order + [key])
  {
    var grown := order + [key];
    forall i | 0 <= i < |grown| ensures grown[i] in graph && DependenciesAreIn(graph, grown[i], grown[..i]) {
      if i < |order| {
        assert grown[..i] == order[..i] && grown[i] == order[i];
      } else {
        assert grown[..i] == order;
      }
    }
  }

  lemma {:induction false} FinishOrderRulesOutCycles(graph: Graph, order: seq<Text>)
    requires IsFinishOrder(graph, order) && forall k :: k in graph ==> k in order
    ensures IsAcyclic(graph)
  {
    forall c ensures !IsCycle(graph, c) {
      if IsCycle(graph, c) {
        assert Edge(graph, c[0], c[1]);
        var k :| 0 <= k < |order| && order[k] == c[0];
        PathsDescend(graph, order, k, c);
      }
    }
  }

  // ----- the search -----

  /** The active sections are the current path; every other visited section is finished. */
  ghost predicate IsSearching(graph: Graph, path: seq<Text>, active: set<Text>, visited: set<Text>, finished: seq<Text>) {
    && IsPath(graph, path) && NoRepeats(path)
    && (forall k :: k in active <==> k in path)
    && IsFinishOrder(graph, finished)
    && (forall k :: k in visited <==> k in path || k in finished)
    && (forall k :: k in path ==> k !in finished && k in graph)
  }

  /** A section that has not been visited goes to the end of the path. */
  lemma {:induction false} Enters(graph: Graph, path: seq<Text>, active: set<Text>, visited: set<Text>, finished: seq<Text>, key: Text)
    requires IsSearching(graph, path, active, visited, finished) && key in graph && key !in visited
    requires path != [] ==> Edge(graph, path[|path| - 1], key)
    ensures IsSearching(graph, path + [key], active + {key}, visited + {key}, finished)
  {
    hide IsFinishOrder;
  }

  lemma {:induction false} FrontOfPath(graph: Graph, path: seq<Text>, key: Text)
    requires IsPath(graph, path + [key]) && NoRepeats(path + [key])
    ensures IsPath(graph, path) && NoRepeats(path) && key !in path
  {
    var longer := path + [key];
    assert forall i :: 0 <= i < |path| ==> longer[i] == path[i];
    assert longer[|path|] == key;
  }

  /** The section at the end of the path is finished once its dependencies are. */
  lemma {:induction false} Leaves(graph: Graph, path: seq<Text>, active: set<Text>, visited: set<Text>, finished: seq<Text>, key: Text)
    requires IsSearching(graph, path + [key], active, visited, finished) && key in graph && DependenciesAreIn(graph, key, finished)
    ensures IsSearching(graph, path, active - {key}, visited, finished + [key])
  {
    hide IsFinishOrder, IsPath, NoRepeats, DependenciesAreIn;
    assert (path + [key])[|path|] == key;
    FrontOfPath(graph, path, key);
    FinishOrderGrows(graph, finished, key);
  }

  class CycleFinder {
    const graph: Graph
    var visited: set<Text>
    var active: set<Text>
    var path: seq<Text>
    ghost var finished: seq<Text>

    constructor (graph: Graph)
      ensures this.graph == graph && Valid() && visited == {} && path == [] && finished == []
    {
      this.graph := graph;
      visited, active, path, finished := {}, {}, [], [];
    }

    ghost predicate Valid()
      reads this
    {
      IsSearching(graph, path, active, visited, finished)
    }

    /** `path.indexOf(key)` */
    method IndexOf(key: Text) returns (start: nat)
      requires key in path
      ensures start < |path| && path[start] == key
    {
      start := 0;
      while path[start] != key
        invariant start < |path| && key in path[start..]
        decreases |path| - start
      {
        start := start + 1;
      }
    }

    method Visit(key: Text) returns (r: Search)
      requires Valid() && key in graph
      requires path != [] ==> Edge(graph, path[|path| - 1], key)
      modifies this
      ensures r.Cycle? ==> IsCycle(graph, r.path) && NoRepeats(r.path[1..])
      ensures r.NoCycle? ==> Valid() && path == old(path) && key in finished
      ensures r.NoCycle? ==> old(visited) <= visited && old(finished) <= finished
      decreases graph.Keys - visited, 1
    {
      hide IsCycle, IsPath, NoRepeats, DependenciesAreIn, IsFinishOrder;
      if key in active {
        var start := IndexOf(key);
        r := Cycle(path[start..] + [key]);
        ClosedPath(start, key);
        return;
      }
      if key in visited {
        return NoCycle;
      }
      Enters(graph, path, active, visited, finished, key);
      ghost var before := path;
      visited := visited + {key};
      active := active + {key};
      path := path + [key];
      r := VisitDependencies(key);
      if r.NoCycle? {
        Leaves(graph, before, active, visited, finished, key);
        path := path[..|path| - 1];
        active := active - {key};
        finished := finished + [key];
      }
    }

    /** The loop over the dependencies of the section at the end of the path. */
    method VisitDependencies(key: Text) returns (r: Search)
      requires Valid() && path != [] && path[|path| - 1] == key
      modifies this
      ensures r.Cycle? ==> IsCycle(graph, r.path) && NoRepeats(r.path[1..])
      ensures r.NoCycle? ==> Valid() && path == old(path) && DependenciesAreIn(graph, key, finished)
      ensures r.NoCycle? ==> old(visited) <= visited && old(finished) <= finished
      decreases graph.Keys - visited, 2
    {
      hide IsCycle, IsPath, NoRepeats, IsFinishOrder;
      var dependencies := graph[key];
      for i := 0 to |dependencies|
        invariant Valid() && path == old(path)
        invariant old(visited) <= visited && old(finished) <= finished
        invariant forall j :: 0 <= j < i && dependencies[j] in graph ==> dependencies[j] in finished
      {
        var dependency := dependencies[i];
        if dependency in graph {
          assert Edge(graph, key, dependency);
          r := Visit(dependency);
          if r.Cycle? {
            return;
          }
        }
      }
      r := NoCycle;
    }

    lemma {:induction false} ClosedPath(start: nat, key: Text)
      requires Valid() && start < |path| && path[start] == key && Edge(graph, path[|path| - 1], key)
      ensures IsCycle(graph, path[start..] + [key]) && NoRepeats((path[start..] + [key])[1..])
    {
      var c := path[start..] + [key];
      forall i | 0 <= i < |c| - 1 ensures Edge(graph, c[i], c[i + 1]) {
        assert c[i] == path[start + i];
        if i + 1 < |c| - 1 {
          assert c[i + 1] == path[start + i + 1];
          assert Edge(graph, path[start + i], path[start + i + 1]);
        }
      }
      var tail := c[1..];
      forall i, j | 0 <= i < j < |tail| ensures tail[i] != tail[j] {
        assert tail[i] == path[start + i + 1];
        assert j < |tail| - 1 ==> tail[j] == path[start + j + 1];
      }
    }
  }

  /** findDependencyCycle: a cycle is returned exactly when there is one. */
  method FindDependencyCycle(sections: seq<Section>) returns (r: Search)
    ensures r.Cycle? ==> IsCycle(GraphOf(sections), r.path) && NoRepeats(r.path[1..])
    ensures r.NoCycle? <==> IsAcyclic(GraphOf(sections))
  {
    var finder := new CycleFinder(GraphOf(sections));
    var keys := KeysOf(sections);
    for i := 0 to |keys|
      invariant finder.Valid() && finder.path == []
      invariant forall j :: 0 <= j < i ==> keys[j] in finder.finished
    {
      assert keys[i] in keys;
      r := finder.Visit(keys[i]);
      if r.Cycle? {
        return;
      }
    }
    FinishOrderRulesOutCycles(finder.graph, finder.finished);
    r := NoCycle;
  }
}
