/** The three-colour search of detectCycle in god/oracle.go. */
module CycleDetection {
  import opened Strings

  type Id = string

  datatype Node = Node(id: Id, dependsOn: seq<Id>)

  /** The adjacency map: of two nodes with one id the later one counts. */
  function DepsOf(nodes: seq<Node>): map<Id, seq<Id>> {
    if nodes == [] then map[]
    else
      var last := nodes[|nodes| - 1];
      DepsOf(nodes[..|nodes| - 1])[last.id := last.dependsOn]
  }

  /** An id that names no node has no dependencies. */
  predicate Edge(deps: map<Id, seq<Id>>, u: Id, v: Id) {
    u in deps && v in deps[u]
  }

  predicate IsPath(deps: map<Id, seq<Id>>, p: seq<Id>) {
    forall i :: 0 <= i < |p| - 1 ==> Edge(deps, p[i], p[i + 1])
  }

  /** A closed path that ends with the edge from u to v; a self-loop is one. */
  predicate IsCycle(deps: map<Id, seq<Id>>, p: seq<Id>, u: Id, v: Id) {
    |p| >= 2 && IsPath(deps, p) && p[0] == v && p[|p| - 2] == u && p[|p| - 1] == v
  }

  ghost predicate Cyclic(deps: map<Id, seq<Id>>) {
    exists p, u, v :: IsCycle(deps, p, u, v)
  }

  /** Every id in the order comes after all its dependencies. */
  ghost predicate Topological(deps: map<Id, seq<Id>>, order: seq<Id>) {
    forall k, v {:trigger Edge(deps, order[k], v)} :: 0 <= k < |order| && Edge(deps, order[k], v) ==> v in order[..k]
  }

  /** All ids that occur as a node or as a dependency. */
  ghost function Universe(deps: map<Id, seq<Id>>): set<Id> {
    deps.Keys + set u, v | u in deps && v in deps[u] :: v
  }

  /** No member of an order by finishing time lies on a cycle. */
  lemma {:induction false} OrderedNotOnCycle(deps: map<Id, seq<Id>>, order: seq<Id>, p: seq<Id>, u: Id, v: Id,
                                             k: nat, i: nat)
    requires Topological(deps, order) && IsCycle(deps, p, u, v) && k < |order| && i < |p|
    ensures order[k] != p[i]
    decreases k
  {
    if order[k] == p[i] {
      var j := if i == |p| - 1 then 0 else i;
      assert Edge(deps, order[k], p[j + 1]);
      var l :| 0 <= l < k && order[..k][l] == p[j + 1];
      OrderedNotOnCycle(deps, order, p, u, v, l, j + 1);
    }
  }

  /** A topological order of all nodes rules out every cycle. */
  lemma OrderedIsAcyclic(deps: map<Id, seq<Id>>, order: seq<Id>)
    requires Topological(deps, order) && forall id :: id in deps ==> id in order
    ensures !Cyclic(deps)
  {
    forall p, u, v | IsCycle(deps, p, u, v) ensures false {
      assert Edge(deps, p[0], p[1]);
      var k :| 0 <= k < |order| && order[k] == p[0];
      OrderedNotOnCycle(deps, order, p, u, v, k, 0);
    }
  }

  lemma TopologicalSnoc(deps: map<Id, seq<Id>>, order: seq<Id>, id: Id)
    requires Topological(deps, order) && forall v :: Edge(deps, id, v) ==> v in order
    ensures Topological(deps, order + [id])
  {
    var longer := order + [id];
    forall k, v | 0 <= k < |longer| && Edge(deps, longer[k], v) ensures v in longer[..k] {
      assert longer[..k] == order[..k];
      if k < |order| { assert Edge(deps, order[k], v); } else { assert order[..k] == order; }
    }
  }

  datatype Color = White | Gray | Black

  class Detector {
    const deps: map<Id, seq<Id>>
    var color: map<Id, Color>
    ghost var path: seq<Id>      // the current path of the search
    ghost var finished: seq<Id>  // ids in the order in which they turned black

    constructor (deps: map<Id, seq<Id>>)
      ensures this.deps == deps && color == map[] && path == [] && finished == []
      ensures Valid()
    {
      this.deps := deps;
      color, path, finished := map[], [], [];
    }

    function ColorOf(id: Id): Color
      reads this
    {
      if id in color then color[id] else White
    }

    ghost predicate Valid()
      reads this
    {
      && (forall id :: ColorOf(id) == Gray <==> id in path)
      && (forall id :: ColorOf(id) == Black <==> id in finished)
      && (forall i, j :: 0 <= i < j < |path| ==> path[i] != path[j])
      && IsPath(deps, path)
      && Topological(deps, finished)
    }

    ghost function Unvisited(): set<Id>
      reads this
    {
      set id | id in Universe(deps) && ColorOf(id) == White
    }

    lemma ClosesCycle(u: Id, v: Id)
      requires Valid() && path != [] && path[|path| - 1] == u && v in path && Edge(deps, u, v)
      ensures exists p :: IsCycle(deps, p, u, v)
    {
      var i :| 0 <= i < |path| && path[i] == v;
      var p := path[i..] + [v];
      forall k | 0 <= k < |p| - 1 ensures Edge(deps, p[k], p[k + 1]) {
        if k < |p| - 2 { assert Edge(deps, path[i + k], path[i + k + 1]); }
      }
      assert IsCycle(deps, p, u, v);
    }

    /** color[id] = gray */
    method Enter(id: Id)
      requires Valid() && ColorOf(id) == White && id in Universe(deps)
      requires path != [] ==> Edge(deps, path[|path| - 1], id)
      modifies this
      ensures Valid() && path == old(path) + [id] && finished == old(finished)
      ensures Unvisited() < old(Unvisited())
    {
      color := color[id := Gray];
      path := path + [id];
      assert id in old(Unvisited()) && id !in Unvisited();
    }

    /** color[id] = black */
    method Leave(id: Id)
      requires Valid() && path != [] && path[|path| - 1] == id
      requires forall v :: Edge(deps, id, v) ==> v in finished
      modifies this
      ensures Valid() && path == old(path)[..|old(path)| - 1] && finished == old(finished) + [id]
      ensures Unvisited() <= old(Unvisited())
    {
      TopologicalSnoc(deps, finished, id);
      color := color[id := Black];
      path := path[..|path| - 1];
      finished := finished + [id];
      assert old(path) == path + [id];
      assert id !in path;
      forall x ensures ColorOf(x) == Gray <==> x in path {
        assert x != id ==> ColorOf(x) == old(ColorOf(x)) && (x in path <==> x in old(path));
      }
      forall x ensures ColorOf(x) == Black <==> x in finished {
        assert x != id ==> ColorOf(x) == old(ColorOf(x)) && (x in finished <==> x in old(finished));
      }
      forall i | 0 <= i < |path| - 1 ensures Edge(deps, path[i], path[i + 1]) {
        assert Edge(deps, old(path)[i], old(path)[i + 1]);
      }
    }

    /** visit: None, or the edge that closes a cycle. */
    method Visit(id: Id) returns (r: Option<(Id, Id)>)
      requires Valid() && ColorOf(id) == White && id in Universe(deps)
      requires path != [] ==> Edge(deps, path[|path| - 1], id)
      modifies this
      ensures r.None? ==> Valid() && path == old(path) && old(finished) <= finished && id in finished
      ensures r.Some? ==> exists p :: IsCycle(deps, p, r.value.0, r.value.1)
      ensures Unvisited() <= old(Unvisited())
      decreases Unvisited()
    {
      Enter(id);
      var mine := if id in deps then deps[id] else [];
      for k := 0 to |mine|
        invariant Valid() && path == old(path) + [id] && old(finished) <= finished
        invariant Unvisited() < old(Unvisited())
        invariant forall j :: 0 <= j < k ==> mine[j] in finished
      {
        var dep := mine[k];
        assert Edge(deps, id, dep);
        match ColorOf(dep)
        case Gray =>
          ClosesCycle(id, dep);
          return Some((id, dep));
        case White =>
          var err := Visit(dep);
          if err.Some? { return err; }
        case Black =>
          assert dep in finished;
      }
      assert path[..|path| - 1] == old(path);
      Leave(id);
      r := None;
    }
  }

  // ---- The nodes themselves ---------------------------------------------------------------------

  /** The k-th node is the last one with its id. */
  predicate Counts(nodes: seq<Node>, k: nat)
    requires k < |nodes|
  {
    forall l :: k < l < |nodes| ==> nodes[l].id != nodes[k].id
  }

  /** Some node that counts has the id u and lists v. */
  predicate DependsOn(nodes: seq<Node>, u: Id, v: Id) {
    exists k :: 0 <= k < |nodes| && nodes[k].id == u && v in nodes[k].dependsOn && Counts(nodes, k)
  }

  /** The adjacency map has exactly the edges that the nodes list. */
  lemma {:induction false} EdgeIff(nodes: seq<Node>, u: Id, v: Id)
    ensures Edge(DepsOf(nodes), u, v) <==> DependsOn(nodes, u, v)
  {
    if nodes != [] {
      var n := |nodes| - 1;
      var init, last := nodes[..n], nodes[n];
      EdgeIff(init, u, v);
      if last.id == u {
        assert Counts(nodes, n);
      } else {
        forall k | 0 <= k < n && nodes[k].id == u ensures Counts(nodes, k) <==> Counts(init, k) {
          assert forall l :: k < l < n ==> nodes[l] == init[l];
        }
        assert DependsOn(nodes, u, v) ==> DependsOn(init, u, v);
        if DependsOn(init, u, v) {
          var k :| 0 <= k < n && init[k].id == u && v in init[k].dependsOn && Counts(init, k);
          assert nodes[k] == init[k];
        }
      }
    }
  }

  lemma {:induction false} KeyIff(nodes: seq<Node>, id: Id)
    ensures id in DepsOf(nodes) <==> exists k :: 0 <= k < |nodes| && nodes[k].id == id
  {
    if nodes != [] {
      var init := nodes[..|nodes| - 1];
      KeyIff(init, id);
      assert forall k :: 0 <= k < |init| ==> init[k] == nodes[k];
    }
  }

  /** A closed path of dependencies that the nodes list. */
  predicate IsLoop(nodes: seq<Node>, p: seq<Id>) {
    |p| >= 2 && p[0] == p[|p| - 1] && forall i :: 0 <= i < |p| - 1 ==> DependsOn(nodes, p[i], p[i + 1])
  }

  lemma LoopIff(nodes: seq<Node>, p: seq<Id>)
    requires |p| >= 2
    ensures IsLoop(nodes, p) <==> IsCycle(DepsOf(nodes), p, p[|p| - 2], p[0])
  {
    forall i | 0 <= i < |p| - 1 ensures Edge(DepsOf(nodes), p[i], p[i + 1]) <==> DependsOn(nodes, p[i], p[i + 1]) {
      EdgeIff(nodes, p[i], p[i + 1]);
    }
  }

  /** The order lists every node, each after all its dependencies. */
  ghost predicate Sorts(nodes: seq<Node>, order: seq<Id>) {
    && (forall k :: 0 <= k < |nodes| ==> nodes[k].id in order)
    && (forall k, v {:trigger DependsOn(nodes, order[k], v)} ::
          0 <= k < |order| && DependsOn(nodes, order[k], v) ==> v in order[..k])
  }

  lemma SortsNodes(nodes: seq<Node>, order: seq<Id>)
    requires Topological(DepsOf(nodes), order) && forall k :: 0 <= k < |nodes| ==> nodes[k].id in order
    ensures Sorts(nodes, order) && !exists p :: IsLoop(nodes, p)
  {
    forall k, v | 0 <= k < |order| && DependsOn(nodes, order[k], v) ensures v in order[..k] {
      EdgeIff(nodes, order[k], v);
    }
    forall id | id in DepsOf(nodes) ensures id in order { KeyIff(nodes, id); }
    OrderedIsAcyclic(DepsOf(nodes), order);
    forall p | IsLoop(nodes, p) ensures false { LoopIff(nodes, p); }
  }

  lemma FoundLoop(nodes: seq<Node>, u: Id, v: Id)
    requires exists p :: IsCycle(DepsOf(nodes), p, u, v)
    ensures exists p :: IsLoop(nodes, p) && p[|p| - 2] == u && p[0] == v
  {
    var p :| IsCycle(DepsOf(nodes), p, u, v);
    LoopIff(nodes, p);
  }

  /** An error exactly when the dependencies the nodes list have a cycle; it names the edge that closes one.
      Otherwise some order lists every node after its dependencies. */
  method DetectCycle(nodes: seq<Node>) returns (r: Option<(Id, Id)>)
    ensures r.Some? <==> exists p :: IsLoop(nodes, p)
    ensures r.Some? ==> exists p :: IsLoop(nodes, p) && p[|p| - 2] == r.value.0 && p[0] == r.value.1
    ensures r.None? ==> exists order :: Sorts(nodes, order)
  {
    var deps: map<Id, seq<Id>> := map[];
    for k := 0 to |nodes|
      invariant deps == DepsOf(nodes[..k])
      invariant forall id :: id in deps <==> exists j :: 0 <= j < k && nodes[j].id == id
    {
      assert nodes[..k + 1][..k] == nodes[..k];
      deps := deps[nodes[k].id := nodes[k].dependsOn];
    }
    assert nodes[..|nodes|] == nodes;
    var detector := new Detector(deps);
    for k := 0 to |nodes|
      invariant detector.Valid() && detector.path == [] && detector.deps == deps
      invariant forall j :: 0 <= j < k ==> nodes[j].id in detector.finished
    {
      var id := nodes[k].id;
      if detector.ColorOf(id) == White {
        var err := detector.Visit(id);
        if err.Some? {
          FoundLoop(nodes, err.value.0, err.value.1);
          return err;
        }
      }
    }
    SortsNodes(nodes, detector.finished);
    r := None;
  }
}
