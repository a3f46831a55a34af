/** The kinematic tree of `RobotDescription.from_onshape`
    (`onshape_mjcf/robot_description.py`): the DOFs become weighted edges of
    an undirected `networkx.Graph` over the component indices, the graph must
    be a single tree, and a breadth-first search from the root component
    orients every edge from parent to child. */
module Kinematics {
  import opened Wrappers
  import opened Graphs
  import opened Components

  /** An edge handed to `add_weighted_edges_from`: parent component, child
      component and the DOF name stored as its `weight`. */
  type Arc = (nat, nat, string)

  /** One edge of the kinematic tree: from component `u` to its child
      component `v`, through the DOF named `dofName`. */
  datatype ComponentEdge = ComponentEdge(u: nat, v: nat, dofName: string)

  /** The arc joins `u` and `v`, in either direction. */
  predicate Joins(a: Arc, u: nat, v: nat) {
    (a.0 == u && a.1 == v) || (a.0 == v && a.1 == u)
  }

  /** The arcs without their weights, as an edge list. */
  function Pairs(arcs: seq<Arc>): (P: seq<(nat, nat)>)
    ensures |P| == |arcs|
    ensures forall i :: 0 <= i < |arcs| ==> P[i] == (arcs[i].0, arcs[i].1)
  {
    seq(|arcs|, i requires 0 <= i < |arcs| => (arcs[i].0, arcs[i].1))
  }

  /** No two arcs join the same two components: the edge set of a simple graph. */
  predicate Simple(arcs: seq<Arc>) {
    forall i, j :: 0 <= i < j < |arcs| ==> !Joins(arcs[j], arcs[i].0, arcs[i].1)
  }

  /** The last arc joining `u` and `v`, if there is one. */
  function FindArc(arcs: seq<Arc>, u: nat, v: nat): (k: Option<nat>)
    ensures k.Some? ==> k.value < |arcs| && Joins(arcs[k.value], u, v)
    ensures k.Some? ==> forall j :: k.value < j < |arcs| ==> !Joins(arcs[j], u, v)
    ensures k.None? ==> forall j :: 0 <= j < |arcs| ==> !Joins(arcs[j], u, v)
  {
    if |arcs| == 0 then None
    else if Joins(arcs[|arcs| - 1], u, v) then Some(|arcs| - 1)
    else FindArc(arcs[..|arcs| - 1], u, v)
  }

  /** Two components are adjacent in the edge list exactly when some arc joins them. */
  lemma AdjacentFind(arcs: seq<Arc>, u: nat, v: nat)
    ensures Adjacent(Pairs(arcs), u, v) <==> FindArc(arcs, u, v).Some?
  {
    var P := Pairs(arcs);
    if (u, v) in P {
      var i :| 0 <= i < |P| && P[i] == (u, v);
      assert Joins(arcs[i], u, v);
    }
    if (v, u) in P {
      var i :| 0 <= i < |P| && P[i] == (v, u);
      assert Joins(arcs[i], u, v);
    }
    if FindArc(arcs, u, v).Some? {
      var k := FindArc(arcs, u, v).value;
      assert P[k] == (u, v) || P[k] == (v, u);
    }
  }

  /** `graph.add_edge(a.0, a.1, weight=a.2)`: an edge that already joins the
      two components keeps its place and orientation and takes the new
      weight; otherwise the arc is added at the end. */
  function AddArc(arcs: seq<Arc>, a: Arc): seq<Arc> {
    match FindArc(arcs, a.0, a.1)
    case Some(k) => arcs[k := (arcs[k].0, arcs[k].1, a.2)]
    case None => arcs + [a]
  }

  /** The edges of the graph after `add_weighted_edges_from(arcs)`. */
  function MergeArcs(arcs: seq<Arc>): seq<Arc>
    decreases |arcs|
  {
    if |arcs| == 0 then [] else AddArc(MergeArcs(arcs[..|arcs| - 1]), arcs[|arcs| - 1])
  }

  /** Adding one arc to a simple graph keeps it simple. */
  lemma AddArcSimple(m: seq<Arc>, a: Arc)
    requires Simple(m)
    ensures Simple(AddArc(m, a))
  {
    var m' := AddArc(m, a);
    match FindArc(m, a.0, a.1)
    case Some(k) =>
      forall i, j | 0 <= i < j < |m'|
        ensures !Joins(m'[j], m'[i].0, m'[i].1)
      {
        assert m'[i].0 == m[i].0 && m'[i].1 == m[i].1;
        assert m'[j].0 == m[j].0 && m'[j].1 == m[j].1;
      }
    case None =>
      forall i, j | 0 <= i < j < |m'|
        ensures !Joins(m'[j], m'[i].0, m'[i].1)
      {
        if j == |m| {
          assert !Joins(a, m[i].0, m[i].1);
        } else {
          assert m'[i] == m[i] && m'[j] == m[j];
        }
      }
  }

  /** After adding an arc, two components are joined when they were joined
      before or the arc joins them. */
  lemma AddArcJoins(m: seq<Arc>, a: Arc, u: nat, v: nat)
    ensures FindArc(AddArc(m, a), u, v).Some? <==> FindArc(m, u, v).Some? || Joins(a, u, v)
  {
    var m' := AddArc(m, a);
    match FindArc(m, a.0, a.1)
    case Some(k) =>
      if FindArc(m, u, v).Some? {
        assert Joins(m'[FindArc(m, u, v).value], u, v);
      }
      if FindArc(m', u, v).Some? {
        assert Joins(m[FindArc(m', u, v).value], u, v);
      }
      if Joins(a, u, v) {
        assert Joins(m'[k], u, v);
      }
    case None =>
      assert m'[..|m'| - 1] == m;
  }

  /** After adding an arc, the edge between its two components carries its
      weight and every other edge is unchanged. */
  lemma AddArcWeight(m: seq<Arc>, a: Arc, i: nat)
    requires Simple(m) && i < |AddArc(m, a)|
    ensures var e := AddArc(m, a)[i];
      if Joins(a, e.0, e.1) then e.2 == a.2 else i < |m| && e == m[i]
  {
    var m' := AddArc(m, a);
    match FindArc(m, a.0, a.1)
    case Some(k) =>
      if i != k && Joins(a, m[i].0, m[i].1) {
        assert false;
      }
    case None =>
  }

  /** The last arc joining two components, after one more arc. */
  lemma FindArcSnoc(arcs: seq<Arc>, u: nat, v: nat)
    requires |arcs| > 0
    ensures FindArc(arcs, u, v) == if Joins(arcs[|arcs| - 1], u, v) then Some(|arcs| - 1) else FindArc(arcs[..|arcs| - 1], u, v)
  {
  }

  /** The merged graph is simple, joins exactly the components some DOF joins,
      and each of its edges carries the name of the LAST DOF between its two
      components: parallel DOFs collapse into one edge. */
  lemma {:induction false} MergeArcsFacts(arcs: seq<Arc>)
    ensures Simple(MergeArcs(arcs))
    ensures forall u, v :: FindArc(MergeArcs(arcs), u, v).Some? <==> FindArc(arcs, u, v).Some?
    ensures forall k :: 0 <= k < |MergeArcs(arcs)| ==>
      var e := MergeArcs(arcs)[k];
      FindArc(arcs, e.0, e.1).Some? && e.2 == arcs[FindArc(arcs, e.0, e.1).value].2
    decreases |arcs|
  {
    if |arcs| > 0 {
      var init := arcs[..|arcs| - 1];
      var a := arcs[|arcs| - 1];
      MergeArcsFacts(init);
      var m := MergeArcs(init);
      assert MergeArcs(arcs) == AddArc(m, a);
      AddArcSimple(m, a);
      forall u, v
        ensures FindArc(AddArc(m, a), u, v).Some? <==> FindArc(arcs, u, v).Some?
      {
        AddArcJoins(m, a, u, v);
        FindArcSnoc(arcs, u, v);
      }
      forall k | 0 <= k < |AddArc(m, a)|
        ensures var e := AddArc(m, a)[k];
          FindArc(arcs, e.0, e.1).Some? && e.2 == arcs[FindArc(arcs, e.0, e.1).value].2
      {
        var e := AddArc(m, a)[k];
        AddArcWeight(m, a, k);
        FindArcSnoc(arcs, e.0, e.1);
      }
    }
  }

  /** The neighbours of `u` with the weights of the joining edges, in the
      order of the edge list (the adjacency order `networkx` keeps). */
  function Neighbors(arcs: seq<Arc>, u: nat): seq<(nat, string)>
    decreases |arcs|
  {
    if |arcs| == 0 then []
    else
      var a := arcs[|arcs| - 1];
      Neighbors(arcs[..|arcs| - 1], u)
      + (if a.0 == u then [(a.1, a.2)] else if a.1 == u then [(a.0, a.2)] else [])
  }

  /** In a simple graph, the neighbour list of `u` names exactly the
      components joined to `u`, each with the weight of the joining edge. */
  lemma {:induction false} NeighborsFacts(arcs: seq<Arc>, u: nat)
    requires Simple(arcs)
    ensures forall j :: 0 <= j < |Neighbors(arcs, u)| ==>
      var (v, w) := Neighbors(arcs, u)[j];
      FindArc(arcs, u, v).Some? && w == arcs[FindArc(arcs, u, v).value].2
    ensures forall v :: FindArc(arcs, u, v).Some? ==> exists j :: 0 <= j < |Neighbors(arcs, u)| && Neighbors(arcs, u)[j].0 == v
    decreases |arcs|
  {
    if |arcs| > 0 {
      var init := arcs[..|arcs| - 1];
      var a := arcs[|arcs| - 1];
      assert Simple(init);
      NeighborsFacts(init, u);
      var nb := Neighbors(init, u);
      var nb' := Neighbors(arcs, u);
      assert nb' == nb + (if a.0 == u then [(a.1, a.2)] else if a.1 == u then [(a.0, a.2)] else []);
      forall v
        ensures FindArc(arcs, u, v) == if Joins(a, u, v) then Some(|arcs| - 1) else FindArc(init, u, v)
      {
      }
      forall j | 0 <= j < |nb'|
        ensures var (v, w) := nb'[j]; FindArc(arcs, u, v).Some? && w == arcs[FindArc(arcs, u, v).value].2
      {
        if j < |nb| {
          assert nb'[j] == nb[j];
          var v := nb[j].0;
          var k := FindArc(init, u, v).value;
          assert !Joins(a, u, v) by {
            assert arcs[k] == init[k] && arcs[|arcs| - 1] == a;
          }
        }
      }
      forall v | FindArc(arcs, u, v).Some?
        ensures exists j :: 0 <= j < |nb'| && nb'[j].0 == v
      {
        if Joins(a, u, v) {
          assert |nb'| == |nb| + 1 && nb'[|nb|].0 == v;
        } else {
          var j :| 0 <= j < |nb| && nb[j].0 == v;
          assert nb'[j] == nb[j];
        }
      }
    }
  }

  /** One neighbour of `u`, with the weight of the joining edge. */
  lemma NeighborAt(arcs: seq<Arc>, u: nat, j: nat)
    requires Simple(arcs) && j < |Neighbors(arcs, u)|
    ensures FindArc(arcs, u, Neighbors(arcs, u)[j].0).Some?
    ensures Neighbors(arcs, u)[j].1 == arcs[FindArc(arcs, u, Neighbors(arcs, u)[j].0).value].2
  {
    NeighborsFacts(arcs, u);
  }

  /** A component joined to `u` is among its neighbours. */
  lemma NeighborsCover(arcs: seq<Arc>, u: nat, v: nat)
    requires Simple(arcs) && FindArc(arcs, u, v).Some?
    ensures exists j :: 0 <= j < |Neighbors(arcs, u)| && Neighbors(arcs, u)[j].0 == v
  {
    NeighborsFacts(arcs, u);
  }

  /** The children found by the search, in order of discovery. */
  function Targets(tree: seq<ComponentEdge>): (t: seq<nat>)
    ensures |t| == |tree| && forall i :: 0 <= i < |tree| ==> t[i] == tree[i].v
  {
    seq(|tree|, i requires 0 <= i < |tree| => tree[i].v)
  }

  predicate Distinct<T(==)>(s: seq<T>) {
    forall i, j :: 0 <= i < j < |s| ==> s[i] != s[j]
  }

  /** Every tree edge is an edge of the graph and carries that edge's weight. */
  predicate Weighted(arcs: seq<Arc>, tree: seq<ComponentEdge>) {
    forall i :: 0 <= i < |tree| ==>
      FindArc(arcs, tree[i].u, tree[i].v).Some? && tree[i].dofName == arcs[FindArc(arcs, tree[i].u, tree[i].v).value].2
  }

  /** Every tree edge leaves the root or a component an earlier edge entered,
      so the edges, in order, point away from the root. */
  predicate Outward(tree: seq<ComponentEdge>, root: nat) {
    forall i :: 0 <= i < |tree| ==> tree[i].u == root || tree[i].u in Targets(tree[..i])
  }

  /** What the search keeps true at every step: the queue (which is also the
      set of visited components) is the root followed by the discovered
      children, each discovered once and each a node of the graph; the tree
      uses edges of the graph, and the parent of every child sits earlier in
      the queue (at the ghost index `parents[i]`). */
  ghost predicate Searched(arcs: seq<Arc>, root: nat, queue: seq<nat>, tree: seq<ComponentEdge>, parents: seq<nat>) {
    && queue == [root] + Targets(tree)
    && root !in Targets(tree) && Distinct(Targets(tree))
    && |parents| == |tree|
    && (forall i {:trigger parents[i]} :: 0 <= i < |tree| ==> parents[i] <= i && queue[parents[i]] == tree[i].u)
    && Weighted(arcs, tree)
    && forall i :: 0 <= i < |queue| ==> queue[i] in Nodes(Pairs(arcs)) + {root}
  }

  /** The components dequeued so far have all their neighbours visited. */
  ghost predicate Expanded(arcs: seq<Arc>, queue: seq<nat>, head: nat) {
    head <= |queue| && forall i, v :: 0 <= i < head && FindArc(arcs, queue[i], v).Some? ==> v in queue
  }

  /** Look at one neighbour `v` of the component `u = queue[h]` being
      expanded: an unvisited one is visited, enqueued and becomes a child
      of `u`. */
  method Discover(ghost arcs: seq<Arc>, root: nat, h: nat, v: nat, w: string,
                  queue: seq<nat>, tree: seq<ComponentEdge>, ghost parents: seq<nat>)
    returns (queue': seq<nat>, tree': seq<ComponentEdge>, ghost parents': seq<nat>)
    requires Searched(arcs, root, queue, tree, parents)
    requires h < |queue| && FindArc(arcs, queue[h], v).Some? && w == arcs[FindArc(arcs, queue[h], v).value].2
    ensures Searched(arcs, root, queue', tree', parents')
    ensures queue <= queue' && v in queue'
  {
    if v in queue {
      return queue, tree, parents;
    }
    var u := queue[h];
    var P := Pairs(arcs);
    var k := FindArc(arcs, u, v).value;
    assert P[k] == (u, v) || P[k] == (v, u);
    queue', tree' := queue + [v], tree + [ComponentEdge(u, v, w)];
    parents' := parents + [h];
    assert Targets(tree') == Targets(tree) + [v];
  }

  /** Following the tree edges from the root reaches the `i`-th component of
      the queue: each child hangs off an earlier component by an edge of the
      graph. */
  lemma {:induction false} TreeReaches(arcs: seq<Arc>, root: nat, queue: seq<nat>, tree: seq<ComponentEdge>, parents: seq<nat>, i: nat)
    requires queue == [root] + Targets(tree) && |parents| == |tree|
    requires forall i {:trigger parents[i]} :: 0 <= i < |tree| ==> parents[i] <= i && queue[parents[i]] == tree[i].u
    requires Weighted(arcs, tree)
    requires i < |queue|
    ensures Connected(Pairs(arcs), root, queue[i])
    decreases i
  {
    var P := Pairs(arcs);
    if i == 0 {
      ConnectedRefl(P, root);
    } else {
      var e := tree[i - 1];
      var p := parents[i - 1];
      TreeReaches(arcs, root, queue, tree, parents, p);
      assert queue[p] == e.u && queue[i] == e.v;
      AdjacentFind(arcs, e.u, e.v);
      ConnectedEdge(P, e.u, e.v);
      ConnectedTrans(P, root, e.u, e.v);
    }
  }

  /** Look at the neighbours `nb` of the component `queue[h]` in order. */
  method ScanNeighbors(ghost arcs: seq<Arc>, root: nat, h: nat, nb: seq<(nat, string)>,
                       queue: seq<nat>, tree: seq<ComponentEdge>, ghost parents: seq<nat>)
    returns (queue': seq<nat>, tree': seq<ComponentEdge>, ghost parents': seq<nat>)
    requires Searched(arcs, root, queue, tree, parents) && h < |queue|
    requires forall j :: 0 <= j < |nb| ==>
      FindArc(arcs, queue[h], nb[j].0).Some? && nb[j].1 == arcs[FindArc(arcs, queue[h], nb[j].0).value].2
    ensures Searched(arcs, root, queue', tree', parents')
    ensures queue <= queue'
    ensures forall k :: 0 <= k < |nb| ==> nb[k].0 in queue'
  {
    queue', tree', parents' := queue, tree, parents;
    for j := 0 to |nb|
      invariant Searched(arcs, root, queue', tree', parents')
      invariant queue <= queue'
      invariant forall k :: 0 <= k < j ==> nb[k].0 in queue'
    {
      assert queue'[h] == queue[h];
      queue', tree', parents' := Discover(arcs, root, h, nb[j].0, nb[j].1, queue', tree', parents');
    }
  }

  /** Dequeue the component at `head` and look at its neighbours in order. */
  method Expand(arcs: seq<Arc>, root: nat, head: nat, queue: seq<nat>, tree: seq<ComponentEdge>, ghost parents: seq<nat>)
    returns (queue': seq<nat>, tree': seq<ComponentEdge>, ghost parents': seq<nat>)
    requires Simple(arcs) && head < |queue|
    requires Searched(arcs, root, queue, tree, parents) && Expanded(arcs, queue, head)
    ensures Searched(arcs, root, queue', tree', parents') && Expanded(arcs, queue', head + 1)
    ensures queue <= queue'
  {
    var u := queue[head];
    var nb := Neighbors(arcs, u);
    forall j | 0 <= j < |nb|
      ensures FindArc(arcs, u, nb[j].0).Some? && nb[j].1 == arcs[FindArc(arcs, u, nb[j].0).value].2
    {
      NeighborAt(arcs, u, j);
    }
    queue', tree', parents' := ScanNeighbors(arcs, root, head, nb, queue, tree, parents);
    forall i, v | 0 <= i < head + 1 && FindArc(arcs, queue'[i], v).Some?
      ensures v in queue'
    {
      assert queue'[i] == queue[i];
      if i == head {
        NeighborsCover(arcs, u, v);
        var j :| 0 <= j < |nb| && nb[j].0 == v;
      } else {
        assert v in queue;
      }
    }
  }

  /** The values of a queue, as a set. */
  ghost function Seen(queue: seq<nat>): set<nat> {
    set x: nat | x in queue
  }

  /** A queue that grew without repeating a value has seen more values. */
  lemma SeenGrows(queue: seq<nat>, queue': seq<nat>)
    requires queue < queue' && queue'[|queue|] !in queue
    ensures Seen(queue) < Seen(queue')
  {
    assert queue'[|queue|] in Seen(queue');
  }

  /** `nx.bfs_tree(graph, root).out_edges()` on the simple graph `arcs`: the
      discovered children are distinct and never the root, every tree edge is
      an edge of the graph with its weight, and the root together with the
      children is exactly what the graph connects to the root. */
  method BfsTree(arcs: seq<Arc>, root: nat) returns (tree: seq<ComponentEdge>)
    requires Simple(arcs)
    ensures Weighted(arcs, tree)
    ensures root !in Targets(tree) && Distinct(Targets(tree))
    ensures Outward(tree, root)
    ensures forall x :: Connected(Pairs(arcs), root, x) <==> x == root || x in Targets(tree)
  {
    var P := Pairs(arcs);
    var queue: seq<nat> := [root];
    var head := 0;
    tree := [];
    ghost var parents: seq<nat> := [];
    assert Targets(tree) == [];
    ghost var U := Nodes(P) + {root};
    while head < |queue|
      invariant Searched(arcs, root, queue, tree, parents) && Expanded(arcs, queue, head)
      decreases U - Seen(queue), |queue| - head
    {
      ghost var before := queue;
      queue, tree, parents := Expand(arcs, root, head, queue, tree, parents);
      if queue != before {
        assert queue[|before|] == Targets(tree)[|before| - 1];
        SeenGrows(before, queue);
        assert Seen(queue) <= U;
      }
      head := head + 1;
    }
    ReachedAll(arcs, root, queue);
    QueueReached(arcs, root, queue, tree, parents);
    SearchedOutward(arcs, root, queue, tree, parents);
  }

  /** Once every queued component is expanded, whatever the graph connects to
      the root has been queued. */
  lemma ReachedAll(arcs: seq<Arc>, root: nat, queue: seq<nat>)
    requires |queue| > 0 && queue[0] == root && Expanded(arcs, queue, |queue|)
    ensures forall x :: Connected(Pairs(arcs), root, x) ==> x in queue
  {
    var P := Pairs(arcs);
    var visited := Seen(queue);
    forall x | Connected(P, root, x)
      ensures x in queue
    {
      forall a, b | a in visited && Adjacent(P, a, b)
        ensures b in visited
      {
        var i :| 0 <= i < |queue| && queue[i] == a;
        AdjacentFind(arcs, a, b);
      }
      ClosedSetContainsConnected(P, visited, root, x);
    }
  }

  /** A search whose parents sit earlier in the queue grows its tree outward. */
  lemma SearchedOutward(arcs: seq<Arc>, root: nat, queue: seq<nat>, tree: seq<ComponentEdge>, parents: seq<nat>)
    requires Searched(arcs, root, queue, tree, parents)
    ensures Outward(tree, root)
  {
    forall i | 0 <= i < |tree|
      ensures tree[i].u == root || tree[i].u in Targets(tree[..i])
    {
      var p := parents[i];
      if p > 0 {
        assert tree[i].u == tree[p - 1].v;
        assert Targets(tree[..i])[p - 1] == tree[p - 1].v;
      }
    }
  }

  /** Every queued component is connected to the root. */
  lemma QueueReached(arcs: seq<Arc>, root: nat, queue: seq<nat>, tree: seq<ComponentEdge>, parents: seq<nat>)
    requires Searched(arcs, root, queue, tree, parents)
    ensures forall x :: x == root || x in Targets(tree) ==> Connected(Pairs(arcs), root, x)
  {
    forall x | x == root || x in Targets(tree)
      ensures Connected(Pairs(arcs), root, x)
    {
      assert x in queue;
      var i :| 0 <= i < |queue| && queue[i] == x;
      TreeReaches(arcs, root, queue, tree, parents, i);
    }
  }

  /** The tree edges whose parent is `u`, in order of discovery. */
  function ChildEdges(tree: seq<ComponentEdge>, u: nat): seq<ComponentEdge>
    decreases |tree|
  {
    if |tree| == 0 then []
    else ChildEdges(tree[..|tree| - 1], u) + (if tree[|tree| - 1].u == u then [tree[|tree| - 1]] else [])
  }

  /** `componentEdges`: one (initially empty) list for every node of the
      graph, then each tree edge appended to the list of its parent. The
      result lists, for every component, its child edges in order of
      discovery. */
  method GroupByParent(n: nat, tree: seq<ComponentEdge>) returns (edges: map<nat, seq<ComponentEdge>>)
    requires forall i :: 0 <= i < |tree| ==> tree[i].u < n
    ensures edges.Keys == Range(n)
    ensures forall u :: 0 <= u < n ==> edges[u] == ChildEdges(tree, u)
  {
    edges := map u | u in Range(n) :: [];
    for i := 0 to |tree|
      invariant GroupedUpTo(edges, tree, n, i)
    {
      var e := tree[i];
      edges := edges[e.u := edges[e.u] + [e]];
      GroupedNext(edges, tree, n, i);
    }
    assert tree[..|tree|] == tree;
  }

  /** `edges` lists, for every node below `n`, its child edges among the
      first `i` edges of the tree. */
  ghost predicate GroupedUpTo(edges: map<nat, seq<ComponentEdge>>, tree: seq<ComponentEdge>, n: nat, i: nat)
    requires i <= |tree|
  {
    edges.Keys == Range(n) && forall u :: 0 <= u < n ==> edges[u] == ChildEdges(tree[..i], u)
  }

  /** Appending edge `i` to its parent's list takes in one more edge. */
  lemma GroupedNext(edges: map<nat, seq<ComponentEdge>>, tree: seq<ComponentEdge>, n: nat, i: nat)
    requires i < |tree| && tree[i].u < n && edges.Keys == Range(n)
    requires forall u :: 0 <= u < n && u != tree[i].u ==> edges[u] == ChildEdges(tree[..i], u)
    requires edges[tree[i].u] == ChildEdges(tree[..i], tree[i].u) + [tree[i]]
    ensures GroupedUpTo(edges, tree, n, i + 1)
  {
    assert tree[..i + 1][..i] == tree[..i];
  }

  /** Every edge listed for `u` leaves `u`, and a child edge of `u` is an edge
      of the tree. */
  lemma {:induction false} ChildEdgesOf(tree: seq<ComponentEdge>, u: nat)
    ensures forall e :: e in ChildEdges(tree, u) <==> e in tree && e.u == u
    decreases |tree|
  {
    if |tree| > 0 {
      ChildEdgesOf(tree[..|tree| - 1], u);
      assert tree == tree[..|tree| - 1] + [tree[|tree| - 1]];
    }
  }

  /** A repetition-free sequence has as many distinct values as elements. */
  lemma {:induction false} DistinctCard(s: seq<nat>)
    requires Distinct(s)
    ensures |set x: nat | x in s| == |s|
    decreases |s|
  {
    if |s| > 0 {
      var init := s[..|s| - 1];
      var last := s[|s| - 1];
      assert Distinct(init);
      DistinctCard(init);
      var A := set x: nat | x in init;
      var B := set x: nat | x in s;
      assert s == init + [last];
      forall i | 0 <= i < |init|
        ensures init[i] != last
      {
        assert init[i] == s[i];
      }
      assert last !in A;
      assert B == A + {last};
      assert |B| == |A| + 1;
    }
  }

  /** The component indices `0 .. n-1`. */
  function Range(n: nat): (s: set<nat>)
    ensures forall x: nat :: x in s <==> x < n
    ensures |s| == n
  {
    if n == 0 then {} else Range(n - 1) + {n - 1}
  }

  lemma MergedSimple(arcs: seq<Arc>)
    ensures Simple(MergeArcs(arcs))
  {
    MergeArcsFacts(arcs);
  }

  /** The merged graph only joins components `0 .. n-1`. */
  lemma MergedNodesBelow(arcs: seq<Arc>, n: nat)
    requires forall i :: 0 <= i < |arcs| ==> arcs[i].0 < n && arcs[i].1 < n
    ensures forall k :: 0 <= k < |MergeArcs(arcs)| ==> MergeArcs(arcs)[k].0 < n && MergeArcs(arcs)[k].1 < n
  {
    var m := MergeArcs(arcs);
    MergeArcsFacts(arcs);
    forall k | 0 <= k < |m|
      ensures m[k].0 < n && m[k].1 < n
    {
      var j := FindArc(arcs, m[k].0, m[k].1).value;
    }
  }

  /** Every child found by the search from the root of a connected graph on
      `0 .. n-1` is below `n`, and every component other than the root is
      found. */
  lemma TreeCovers(arcs: seq<Arc>, root: nat, n: nat, tree: seq<ComponentEdge>)
    requires forall k :: 0 <= k < |arcs| ==> arcs[k].0 < n && arcs[k].1 < n
    requires Weighted(arcs, tree)
    requires forall x :: Connected(Pairs(arcs), root, x) <==> x == root || x in Targets(tree)
    requires forall x: nat :: x < n ==> Connected(Pairs(arcs), root, x)
    ensures forall i :: 0 <= i < |tree| ==> tree[i].u < n && tree[i].v < n
    ensures forall x: nat :: x < n && x != root ==> x in Targets(tree)
  {
    forall i | 0 <= i < |tree|
      ensures tree[i].u < n && tree[i].v < n
    {
      var k := FindArc(arcs, tree[i].u, tree[i].v).value;
    }
  }

  /** Components listed as `connected_components` lists them: there is a
      single one exactly when every node is connected to the root. */
  lemma SingleComponent(nodes: seq<nat>, E: seq<(nat, nat)>, comps: seq<set<nat>>, heads: seq<nat>, root: nat)
    requires |heads| == |comps| && forall i :: 0 <= i < |comps| ==> heads[i] in comps[i]
    requires forall i, j :: 0 <= i < j < |comps| ==> comps[i] !! comps[j]
    requires forall x :: (x in nodes || x in Nodes(E)) <==> exists i :: 0 <= i < |comps| && x in comps[i]
    requires forall i, x, y :: 0 <= i < |comps| && x in comps[i] ==> (y in comps[i] <==> Connected(E, x, y))
    requires root in nodes
    ensures |comps| == 1 <==> forall x :: x in nodes || x in Nodes(E) ==> Connected(E, root, x)
  {
    var c :| 0 <= c < |comps| && root in comps[c];
    if |comps| != 1 {
      var other := if c == 0 then 1 else 0;
      var y := heads[other];
      assert y in nodes || y in Nodes(E);
      if Connected(E, root, y) {
        assert false;
      }
    } else {
      forall x | x in nodes || x in Nodes(E)
        ensures Connected(E, root, x)
      {
        var i :| 0 <= i < |comps| && x in comps[i];
        assert i == 0 && c == 0;
      }
    }
  }

  /** A tree whose children are distinct, exclude the root and cover every
      other component of `0 .. n-1` has `n - 1` edges. */
  lemma TreeSize(tree: seq<ComponentEdge>, root: nat, n: nat)
    requires root < n && root !in Targets(tree) && Distinct(Targets(tree))
    requires forall x: nat :: x < n && x != root ==> x in Targets(tree)
    requires forall i :: 0 <= i < |tree| ==> tree[i].v < n
    ensures |tree| == n - 1
  {
    DistinctCard(Targets(tree));
    assert (set x: nat | x in Targets(tree)) == Range(n) - {root};
  }

  /** `nx.cycle_basis` and `nx.number_connected_components` on the graph
      with nodes `0 .. n-1` and edges `E`: whether it has no cycle, and
      whether it is a single connected component. */
  method Census(n: nat, E: seq<(nat, nat)>, root: nat) returns (forest: bool, single: bool)
    requires root < n && forall k :: 0 <= k < |E| ==> E[k].0 < n && E[k].1 < n
    ensures forest <==> Forest(E)
    ensures single <==> forall x: nat :: x < n ==> Connected(E, root, x)
  {
    var nodes: seq<nat> := seq(n, i requires 0 <= i < n => i);
    var comps, heads, order, pos;
    comps, heads, order, pos, forest := ConnectedComponents(nodes, E);
    assert nodes[root] == root;
    SingleComponent(nodes, E, comps, heads, root);
    single := |comps| == 1;
    NodesBelow(n, nodes, E);
  }

  /** The nodes `0 .. n-1` together with the endpoints of edges between them
      are just `0 .. n-1`. */
  lemma NodesBelow(n: nat, nodes: seq<nat>, E: seq<(nat, nat)>)
    requires nodes == seq(n, i requires 0 <= i < n => i)
    requires forall k :: 0 <= k < |E| ==> E[k].0 < n && E[k].1 < n
    ensures forall x: nat :: x in nodes || x in Nodes(E) <==> x < n
  {
    forall x | x in nodes
      ensures x < n
    {
      var i :| 0 <= i < |nodes| && nodes[i] == x;
    }
    forall x: nat | x < n
      ensures x in nodes
    {
      assert nodes[x] == x;
    }
    forall x | x in Nodes(E)
      ensures x < n
    {
      var k :| 0 <= k < |E| && (E[k].0 == x || E[k].1 == x);
    }
  }

  /** The messages of the two failures of the kinematic tree. */
  const Cyclic := "AssertionError: len(nx.cycle_basis(graph)) == 0"
  const Disconnected := "CAD graph can only have 1 connected component"

  /** The part of `from_onshape` that builds the kinematic tree over the
      components `0 .. n-1` from the DOF arcs (parent, child, name): the graph
      must have no cycle (`AssertionError`) and be connected, and then every
      component except the root is the child of exactly one tree edge, the
      tree has `n - 1` edges, its edges point away from the root, and each
      component lists its child edges. */
  method KinematicTree(n: nat, arcs: seq<Arc>, root: nat)
    returns (r: Result<(seq<ComponentEdge>, map<nat, seq<ComponentEdge>>)>)
    requires root < n
    requires forall i :: 0 <= i < |arcs| ==> arcs[i].0 < n && arcs[i].1 < n
    ensures r.Ok? <==>
      && Forest(Pairs(MergeArcs(arcs)))
      && forall x: nat :: x < n ==> Connected(Pairs(MergeArcs(arcs)), root, x)
    ensures r.Err? ==> r.msg == Cyclic || r.msg == Disconnected
    ensures r == Err(Cyclic) <==> !Forest(Pairs(MergeArcs(arcs)))
    ensures r.Ok? ==>
      var (tree, edges) := r.value;
      && Weighted(MergeArcs(arcs), tree)
      && root !in Targets(tree) && Distinct(Targets(tree))
      && Outward(tree, root)
      && (forall x: nat :: x < n && x != root ==> x in Targets(tree))
      && (forall i :: 0 <= i < |tree| ==> tree[i].u < n && tree[i].v < n)
      && |tree| == n - 1
      && edges.Keys == Range(n)
      && forall u :: 0 <= u < n ==> edges[u] == ChildEdges(tree, u)
  {
    var m := MergeArcs(arcs);
    MergedSimple(arcs);
    MergedNodesBelow(arcs, n);
    var P := Pairs(m);
    var forest, single := Census(n, P, root);
    if !forest {
      return Err(Cyclic);
    }
    if !single {
      return Err(Disconnected);
    }
    var tree := BfsTree(m, root);
    TreeCovers(m, root, n, tree);
    TreeSize(tree, root, n);
    var edges := GroupByParent(n, tree);
    return Ok((tree, edges));
  }
}
