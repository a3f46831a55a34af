/** Rigid-body segmentation and occurrence-tree algebra
    (`onshape_mjcf/onshape_data/topology.py`): the rigid mates of the
    document as edges between instance paths and their connected components,
    the common ancestor of a set of paths, the prefix tree of a list of paths,
    and the shallowest subtrees two such trees share. */
module Topology {
  import opened Wrappers
  import opened Dicts
  import opened Ids
  import opened OnshapeData
  import opened Graphs
  import opened Components

  /** An undirected edge of the rigid-mate graph. */
  type Edge = (InstancePath, InstancePath)

  /** A member of the `excluded` collection. The caller hands over the `dofs`
      dictionary, whose keys are DOF names, while the test compares feature
      ids against it: a name never equals a feature id. */
  datatype Key = NameKey(name: string) | FeatureKey(id: FeatureId)

  /** The `canonicalizePath` argument: paths of the root assembly are kept as
      they are, paths of a sub-assembly are put behind its occurrence. */
  datatype Canon = AsIs | Through(lookup: PathLookup)

  function Canonicalize(c: Canon, p: InstancePath): Result<InstancePath> {
    match c
    case AsIs => Ok(p)
    case Through(lookup) => CanonicalizePath(lookup, p)
  }

  /** The edges from `first` to every path of `occs` from index `i` on, after
      the edges `acc` already added. */
  function GroupEdgesFrom(first: InstancePath, occs: seq<InstancePath>, i: nat, c: Canon, acc: seq<Edge>): Result<seq<Edge>>
    requires i <= |occs|
    decreases |occs| - i
  {
    if i == |occs| then Ok(acc)
    else
      var second :- Canonicalize(c, occs[i]);
      GroupEdgesFrom(first, occs, i + 1, c, acc + [(first, second)])
  }

  /** The group edges succeed exactly when every remaining path can be
      canonicalized; they then join `first` to each of them, in order. */
  lemma {:induction false} GroupEdgesFromValue(first: InstancePath, occs: seq<InstancePath>, i: nat, c: Canon, acc: seq<Edge>)
    requires i <= |occs|
    ensures GroupEdgesFrom(first, occs, i, c, acc).Ok? <==> forall k :: i <= k < |occs| ==> Canonicalize(c, occs[k]).Ok?
    ensures GroupEdgesFrom(first, occs, i, c, acc).Ok? ==>
      var r := GroupEdgesFrom(first, occs, i, c, acc).value;
      && |r| == |acc| + |occs| - i
      && r[..|acc|] == acc
      && forall k :: i <= k < |occs| ==> r[|acc| + k - i] == (first, Canonicalize(c, occs[k]).value)
    decreases |occs| - i
  {
    if i < |occs| && Canonicalize(c, occs[i]).Ok? {
      var acc' := acc + [(first, Canonicalize(c, occs[i]).value)];
      GroupEdgesFromValue(first, occs, i + 1, c, acc');
      if GroupEdgesFrom(first, occs, i, c, acc).Ok? {
        var r := GroupEdgesFrom(first, occs, i, c, acc).value;
        assert r[..|acc'|] == acc';
        assert r[..|acc|] == acc'[..|acc|];
      }
    }
  }

  /** The edges one feature adds (`addEdges`, one iteration): nothing for an
      excluded feature; for a FASTENED mate, one edge between its first two
      mated occurrences; for a mate group, an edge from its first occurrence
      to each later one; nothing otherwise. Indexing past the mated entities
      or the group's occurrences, or a path the lookup cannot canonicalize,
      fails. */
  function FeatureEdges(f: Feature, c: Canon, excluded: set<Key>): (r: Result<seq<Edge>>)
    ensures FeatureKey(f.id) in excluded ==> r == Ok([])
    ensures f.MateConnectorFeature? || (f.MateFeature? && f.mateType != "FASTENED") ==> r == Ok([])
    ensures r.Ok? && FeatureKey(f.id) !in excluded && f.MateFeature? && f.mateType == "FASTENED" ==>
      && |f.matedEntities| >= 2
      && Canonicalize(c, f.matedEntities[0].occurrence).Ok?
      && Canonicalize(c, f.matedEntities[1].occurrence).Ok?
      && r.value == [(Canonicalize(c, f.matedEntities[0].occurrence).value, Canonicalize(c, f.matedEntities[1].occurrence).value)]
    ensures FeatureKey(f.id) !in excluded && f.MateGroupFeature? ==>
      (r.Ok? <==> |f.occurrences| >= 1 && forall k :: 0 <= k < |f.occurrences| ==> Canonicalize(c, f.occurrences[k]).Ok?)
    ensures r.Ok? && FeatureKey(f.id) !in excluded && f.MateGroupFeature? ==>
      && |r.value| == |f.occurrences| - 1
      && forall k :: 1 <= k < |f.occurrences| ==>
           r.value[k - 1] == (Canonicalize(c, f.occurrences[0]).value, Canonicalize(c, f.occurrences[k]).value)
  {
    if FeatureKey(f.id) in excluded then Ok([])
    else
      match f
      case MateFeature(_, _, _, mateType, entities) =>
        if mateType != "FASTENED" then Ok([])
        else if |entities| == 0 then Err("IndexError: list index out of range")
        else
          var u :- Canonicalize(c, entities[0].occurrence);
          if |entities| == 1 then Err("IndexError: list index out of range")
          else
            var v :- Canonicalize(c, entities[1].occurrence);
            Ok([(u, v)])
      case MateGroupFeature(_, _, _, occs) =>
        if |occs| == 0 then Err("IndexError: list index out of range")
        else
          var first :- Canonicalize(c, occs[0]);
          GroupEdgesValue(first, occs, c);
          GroupEdgesFrom(first, occs, 1, c, [])
      case MateConnectorFeature(_, _, _, _) => Ok([])
  }

  lemma GroupEdgesValue(first: InstancePath, occs: seq<InstancePath>, c: Canon)
    requires |occs| >= 1
    ensures GroupEdgesFrom(first, occs, 1, c, []).Ok? <==> forall k :: 1 <= k < |occs| ==> Canonicalize(c, occs[k]).Ok?
    ensures GroupEdgesFrom(first, occs, 1, c, []).Ok? ==>
      && |GroupEdgesFrom(first, occs, 1, c, []).value| == |occs| - 1
      && forall k :: 1 <= k < |occs| ==> GroupEdgesFrom(first, occs, 1, c, []).value[k - 1] == (first, Canonicalize(c, occs[k]).value)
  {
    GroupEdgesFromValue(first, occs, 1, c, []);
  }

  /** `suppressed` plays no part in the edges a feature adds. */
  lemma SuppressedIgnored(f: Feature, c: Canon, excluded: set<Key>)
    ensures FeatureEdges(f.(suppressed := !f.suppressed), c, excluded) == FeatureEdges(f, c, excluded)
  {
  }

  /** Excluding by DOF name, as the caller does, excludes no feature. */
  lemma NamesExcludeNothing(f: Feature, c: Canon, names: set<string>)
    ensures FeatureEdges(f, c, set n | n in names :: NameKey(n)) == FeatureEdges(f, c, {})
  {
  }

  /** The edges of the features from index `i` on, after the edges `acc`. */
  function FeaturesFrom(fs: seq<Feature>, i: nat, c: Canon, excluded: set<Key>, acc: seq<Edge>): Result<seq<Edge>>
    requires i <= |fs|
    decreases |fs| - i
  {
    if i == |fs| then Ok(acc)
    else
      var es :- FeatureEdges(fs[i], c, excluded);
      FeaturesFrom(fs, i + 1, c, excluded, acc + es)
  }

  /** The features' edges succeed exactly when every feature's do; they are
      then the edges `acc` followed by the edges of the features. */
  lemma {:induction false} FeaturesFromEdges(fs: seq<Feature>, i: nat, c: Canon, excluded: set<Key>, acc: seq<Edge>)
    requires i <= |fs|
    ensures FeaturesFrom(fs, i, c, excluded, acc).Ok? <==> forall k :: i <= k < |fs| ==> FeatureEdges(fs[k], c, excluded).Ok?
    ensures FeaturesFrom(fs, i, c, excluded, acc).Ok? ==>
      var r := FeaturesFrom(fs, i, c, excluded, acc).value;
      && acc <= r
      && (forall k, e :: i <= k < |fs| && e in FeatureEdges(fs[k], c, excluded).value ==> e in r)
      && (forall e :: e in r ==> e in acc || exists k :: i <= k < |fs| && e in FeatureEdges(fs[k], c, excluded).value)
    decreases |fs| - i
  {
    if i < |fs| && FeatureEdges(fs[i], c, excluded).Ok? {
      var es := FeatureEdges(fs[i], c, excluded).value;
      FeaturesFromEdges(fs, i + 1, c, excluded, acc + es);
      if FeaturesFrom(fs, i, c, excluded, acc).Ok? {
        var r := FeaturesFrom(fs, i, c, excluded, acc).value;
        assert acc + es <= r;
        assert forall e :: e in es ==> e in r by {
          forall e | e in es
            ensures e in r
          {
            var j :| 0 <= j < |es| && es[j] == e;
            assert r[|acc| + j] == (acc + es)[|acc| + j];
          }
        }
      }
    }
  }

  /** The edges the sub-assembly occurrences from index `i` on add: each
      occurrence is looked up, and an occurrence of an assembly adds the
      edges of that assembly's features, canonicalized through the lookup. */
  function OccurrencesFrom(doc: Document, occs: seq<Occurrence>, i: nat, excluded: set<Key>, acc: seq<Edge>): Result<seq<Edge>>
    requires WellFormed(doc) && i <= |occs|
    decreases |occs| - i
  {
    if i == |occs| then Ok(acc)
    else
      var lookup :- LookupPath(doc, occs[i].path);
      match lookup.archetype
      case PartArchetype(_) => OccurrencesFrom(doc, occs, i + 1, excluded, acc)
      case AssemblyArchetype(assembly) =>
        var acc' :- FeaturesFrom(assembly.features.Values(), 0, Through(lookup), excluded, acc);
        OccurrencesFrom(doc, occs, i + 1, excluded, acc')
  }

  /** The rigid-mate graph of the document: the edges of the root assembly's
      features, then those of every sub-assembly occurrence. */
  function RigidEdges(doc: Document, excluded: set<Key>): Result<seq<Edge>>
    requires WellFormed(doc)
  {
    if doc.rootAssemblyId !in doc.assemblies.m then Err("KeyError: root assembly")
    else
      var root :- FeaturesFrom(doc.assemblies.m[doc.rootAssemblyId].features.Values(), 0, AsIs, excluded, []);
      OccurrencesFrom(doc, doc.occurrences.Values(), 0, excluded, root)
  }

  /** The edges of a group, added one by one (the inner loop of `addEdges`). */
  method AddGroupEdges(first: InstancePath, occs: seq<InstancePath>, c: Canon) returns (r: Result<seq<Edge>>)
    requires |occs| >= 1
    ensures r == GroupEdgesFrom(first, occs, 1, c, [])
  {
    var added: seq<Edge> := [];
    for i := 1 to |occs|
      invariant GroupEdgesFrom(first, occs, 1, c, []) == GroupEdgesFrom(first, occs, i, c, added)
    {
      var second := Canonicalize(c, occs[i]);
      if second.Err? {
        return Err(second.msg);
      }
      added := added + [(first, second.value)];
    }
    return Ok(added);
  }

  /** `addEdges(features, canonicalizePath)`: add the edges of every feature
      to `graph`. */
  method AddEdges(fs: seq<Feature>, c: Canon, excluded: set<Key>, graph: seq<Edge>) returns (r: Result<seq<Edge>>)
    ensures r == FeaturesFrom(fs, 0, c, excluded, graph)
  {
    var g := graph;
    for i := 0 to |fs|
      invariant FeaturesFrom(fs, 0, c, excluded, graph) == FeaturesFrom(fs, i, c, excluded, g)
    {
      var f := fs[i];
      if FeatureKey(f.id) in excluded {
        assert g + [] == g;
        continue;
      }
      match f
      case MateFeature(_, _, _, mateType, entities) =>
        if mateType == "FASTENED" {
          if |entities| == 0 {
            return Err("IndexError: list index out of range");
          }
          var u := Canonicalize(c, entities[0].occurrence);
          if u.Err? {
            return Err(u.msg);
          }
          if |entities| == 1 {
            return Err("IndexError: list index out of range");
          }
          var v := Canonicalize(c, entities[1].occurrence);
          if v.Err? {
            return Err(v.msg);
          }
          g := g + [(u.value, v.value)];
        } else {
          assert g + [] == g;
        }
      case MateGroupFeature(_, _, _, occs) =>
        if |occs| == 0 {
          return Err("IndexError: list index out of range");
        }
        var first := Canonicalize(c, occs[0]);
        if first.Err? {
          return Err(first.msg);
        }
        var added := AddGroupEdges(first.value, occs, c);
        if added.Err? {
          return Err(added.msg);
        }
        g := g + added.value;
      case MateConnectorFeature(_, _, _, _) =>
        assert g + [] == g;
    }
    return Ok(g);
  }

  /** The components of a graph: non-empty, pairwise disjoint, covering exactly
      the endpoints of its edges, each holding exactly the paths a chain of
      edges joins to any of its members. */
  ghost predicate ComponentsOf(comps: seq<set<InstancePath>>, E: seq<Edge>) {
    && (forall i :: 0 <= i < |comps| ==> comps[i] != {})
    && (forall i, j :: 0 <= i < j < |comps| ==> comps[i] !! comps[j])
    && (forall x :: x in Nodes(E) <==> exists i :: 0 <= i < |comps| && x in comps[i])
    && (forall i, x, y :: 0 <= i < |comps| && x in comps[i] ==> (y in comps[i] <==> Connected(E, x, y)))
  }

  /** The connected component of the graph's node `x`: the nodes a chain of
      edges joins to it. */
  ghost function ComponentOf(E: seq<Edge>, x: InstancePath): set<InstancePath> {
    set y | y in Nodes(E) && Connected(E, x, y)
  }

  /** Each listed component is the connected component of any of its
      members, so the components are the same sets however they are listed. */
  lemma ComponentsAreClasses(comps: seq<set<InstancePath>>, E: seq<Edge>, i: nat, x: InstancePath)
    requires ComponentsOf(comps, E) && i < |comps| && x in comps[i]
    ensures x in Nodes(E) && comps[i] == ComponentOf(E, x)
  {
    forall y | y in comps[i]
      ensures y in Nodes(E)
    {
    }
  }

  /** No component is a proper subset of another, so `sorted`, which compares
      sets by `<`, leaves their order as it is. */
  lemma ComponentsIncomparable(comps: seq<set<InstancePath>>, E: seq<Edge>)
    requires ComponentsOf(comps, E)
    ensures forall i, j :: 0 <= i < |comps| && 0 <= j < |comps| ==> !(comps[i] < comps[j])
  {
    forall i, j | 0 <= i < |comps| && 0 <= j < |comps|
      ensures !(comps[i] < comps[j])
    {
      if i != j {
        assert comps[i] != {};
        var x :| x in comps[i];
        if i < j {
          assert comps[i] !! comps[j];
        } else {
          assert comps[j] !! comps[i];
        }
      }
    }
  }

  /** `nx.connected_components(graph)` over the graph with the edges `E`:
      its components, in the order in which the edges first reach them. */
  method GraphComponents(E: seq<Edge>) returns (comps: seq<set<InstancePath>>)
    ensures ComponentsOf(comps, E)
    ensures FirstSeenOrder(comps, Dedup(Endpoints(E)))
  {
    var heads, order, pos, forest;
    comps, heads, order, pos, forest := ConnectedComponents([], E);
    assert [] + Endpoints(E) == Endpoints(E);
    HeadsFirstSeen(comps, heads, order, pos);
  }

  /** `findComponents(data, excluded)`: the connected components of the
      rigid-mate graph, in the order in which the edges, as added, first
      reach them (the order networkx's `connected_components` yields them
      in, over a graph whose nodes are kept in insertion order). */
  method FindComponents(doc: Document, excluded: set<Key>) returns (r: Result<seq<set<InstancePath>>>)
    requires WellFormed(doc)
    ensures r.Ok? <==> RigidEdges(doc, excluded).Ok?
    ensures r.Ok? ==> ComponentsOf(r.value, RigidEdges(doc, excluded).value)
    ensures r.Ok? ==> FirstSeenOrder(r.value, Dedup(Endpoints(RigidEdges(doc, excluded).value)))
  {
    if doc.rootAssemblyId !in doc.assemblies.m {
      return Err("KeyError: root assembly");
    }
    var rootGraph := AddEdges(doc.assemblies.m[doc.rootAssemblyId].features.Values(), AsIs, excluded, []);
    if rootGraph.Err? {
      return Err(rootGraph.msg);
    }
    var graph := rootGraph.value;
    var occs := doc.occurrences.Values();
    for i := 0 to |occs|
      invariant RigidEdges(doc, excluded) == OccurrencesFrom(doc, occs, i, excluded, graph)
    {
      var lookup := LookupPath(doc, occs[i].path);
      if lookup.Err? {
        return Err(lookup.msg);
      }
      if lookup.value.archetype.PartArchetype? {
        continue;
      }
      var next := AddEdges(lookup.value.archetype.assembly.features.Values(), Through(lookup.value), excluded, graph);
      if next.Err? {
        return Err(next.msg);
      }
      graph := next.value;
    }
    var comps := GraphComponents(graph);
    return Ok(comps);
  }

  // ---- findCommonAncestor ----

  /** The index of the first disagreement of `a` and `b` at or after `idx`
      among the first `count` elements of `a`, or `count` when there is none. */
  function Scan(a: seq<InstanceId>, b: seq<InstanceId>, count: nat, idx: nat): (k: nat)
    requires count <= |a|
    ensures idx <= count ==> idx <= k
    ensures k <= count
    ensures forall j :: idx <= j < k && j < |b| ==> a[j] == b[j]
    ensures k < count ==> k < |b| && a[k] != b[k]
    decreases count - idx
  {
    if idx >= count || idx >= |b| then count
    else if a[idx] != b[idx] then idx
    else Scan(a, b, count, idx + 1)
  }

  /** The count left after comparing `a` with the paths from index `i` on. */
  function CountFrom(a: seq<InstanceId>, occs: seq<InstancePath>, i: nat, count: nat): (k: nat)
    requires count <= |a| && i <= |occs|
    ensures k <= count
    decreases |occs| - i
  {
    if i == |occs| then count
    else CountFrom(a, occs, i + 1, Scan(a, occs[i].elements, count, 0))
  }

  predicate SameRoot(occs: seq<InstancePath>)
    requires |occs| > 0
  {
    forall k :: 0 <= k < |occs| ==> occs[k].root == occs[0].root
  }

  /** `findCommonAncestor(occurrences)`, with `occs` the order in which the
      set lists its paths: the first path cut at the first index where a later
      path disagrees with it. An empty input or paths with different roots
      fail. */
  function CommonAncestor(occs: seq<InstancePath>): (r: Result<InstancePath>)
    ensures r.Ok? <==> |occs| > 0 && SameRoot(occs)
    ensures r.Ok? ==> IsPrefix(r.value, occs[0])
  {
    if |occs| == 0 then Err("IndexError: list index out of range")
    else if !SameRoot(occs) then Err("AssertionError: roots differ")
    else
      var a := occs[0].elements;
      Ok(InstancePath(occs[0].root, a[..CountFrom(a, occs, 1, |a|)]))
  }

  lemma {:induction false} CountFromAgrees(a: seq<InstanceId>, occs: seq<InstancePath>, i: nat, count: nat)
    requires count <= |a| && i <= |occs|
    ensures forall k, j :: i <= k < |occs| && 0 <= j < CountFrom(a, occs, i, count) && j < |occs[k].elements| ==>
      a[j] == occs[k].elements[j]
    decreases |occs| - i
  {
    if i < |occs| {
      CountFromAgrees(a, occs, i + 1, Scan(a, occs[i].elements, count, 0));
    }
  }

  lemma {:induction false} CountFromWitness(a: seq<InstanceId>, occs: seq<InstancePath>, i: nat, count: nat)
    requires count <= |a| && i <= |occs|
    requires CountFrom(a, occs, i, count) < count
    ensures exists k :: (i <= k < |occs| && CountFrom(a, occs, i, count) < |occs[k].elements|
      && a[CountFrom(a, occs, i, count)] != occs[k].elements[CountFrom(a, occs, i, count)])
    decreases |occs| - i
  {
    var next := Scan(a, occs[i].elements, count, 0);
    if CountFrom(a, occs, i + 1, next) < next {
      CountFromWitness(a, occs, i + 1, next);
    }
  }

  /** The common ancestor agrees with every input path at every index both
      have. */
  lemma CommonAncestorAgrees(occs: seq<InstancePath>, k: nat, j: nat)
    requires CommonAncestor(occs).Ok?
    requires k < |occs| && j < Len(CommonAncestor(occs).value) && j < Len(occs[k])
    ensures CommonAncestor(occs).value.elements[j] == occs[k].elements[j]
  {
    var a := occs[0].elements;
    CountFromAgrees(a, occs, 1, |a|);
  }

  /** The common ancestor is shorter than the first path only where some later
      path is long enough and disagrees with the first at that index. */
  lemma CommonAncestorCut(occs: seq<InstancePath>)
    requires CommonAncestor(occs).Ok?
    requires Len(CommonAncestor(occs).value) < Len(occs[0])
    ensures var n := Len(CommonAncestor(occs).value);
      exists k :: 0 < k < |occs| && n < Len(occs[k]) && occs[k].elements[n] != occs[0].elements[n]
  {
    var a := occs[0].elements;
    CountFromWitness(a, occs, 1, |a|);
  }

  /** A single path is its own common ancestor. */
  lemma CommonAncestorSingle(p: InstancePath)
    ensures CommonAncestor([p]) == Ok(p)
  {
    assert p.elements[..|p.elements|] == p.elements;
  }

  /** When the second path is a strict ancestor of the first, the result is
      the first path, not the ancestor: the comparison never runs past the
      shorter path. */
  lemma CommonAncestorPrefixQuirk(p: InstancePath, q: InstancePath)
    requires IsPrefix(q, p) && Len(q) < Len(p)
    ensures CommonAncestor([p, q]) == Ok(p)
  {
    var a := p.elements;
    assert [p, q][1] == q;
    assert forall j :: 0 <= j < |q.elements| ==> a[j] == q.elements[j];
    assert Scan(a, q.elements, |a|, 0) == |a|;
    assert CountFrom(a, [p, q], 1, |a|) == CountFrom(a, [p, q], 2, |a|) == |a|;
    assert SameRoot([p, q]);
    assert a[..|a|] == a;
  }

  /** `findCommonAncestor`: check the roots, then lower `count` to the first
      disagreement with each later path. */
  method FindCommonAncestor(occs: seq<InstancePath>) returns (r: Result<InstancePath>)
    ensures r == CommonAncestor(occs)
  {
    if |occs| == 0 {
      return Err("IndexError: list index out of range");
    }
    var first := occs[0];
    for k := 0 to |occs|
      invariant forall j :: 0 <= j < k ==> occs[j].root == first.root
    {
      if first.root != occs[k].root {
        return Err("AssertionError: roots differ");
      }
    }
    var elems := first.elements;
    var count: nat := |elems|;
    for i := 1 to |occs|
      invariant count <= |elems|
      invariant CountFrom(elems, occs, 1, |elems|) == CountFrom(elems, occs, i, count)
    {
      count := LowerCount(elems, occs[i].elements, count);
    }
    return Ok(InstancePath(first.root, elems[..count]));
  }

  /** The loop over the elements of one later path: `count` drops to the
      first index below it where `other` differs from `elems`, and stays when
      there is none or `other` ends first. */
  method LowerCount(elems: seq<InstanceId>, other: seq<InstanceId>, count: nat) returns (count': nat)
    requires count <= |elems|
    ensures count' == Scan(elems, other, count, 0)
  {
    count' := count;
    var idx := 0;
    while idx < count && idx < |other|
      invariant idx <= count
      invariant Scan(elems, other, count, 0) == Scan(elems, other, count, idx)
    {
      if elems[idx] != other[idx] {
        count' := idx;  // `min(idx, count)`, which is `idx` here
        return;
      }
      idx := idx + 1;
    }
  }

  // ---- makeOccurranceTree ----

  /** A node of an occurrence tree: the elements of a path, without its root. */
  type Node = seq<InstanceId>

  /** A directed tree of nodes; `edges` go from parent to child. */
  datatype Tree = Tree(nodes: set<Node>, edges: set<(Node, Node)>)

  /** `t.succ[n]`, as a set. */
  function Children(t: Tree, n: Node): set<Node> {
    set e | e in t.edges && e.0 == n :: e.1
  }

  /** `n` is a prefix of the non-empty path `p`. */
  predicate Under(n: Node, p: InstancePath) {
    |p.elements| > 0 && Prefix(n, p.elements)
  }

  predicate Prefix(n: Node, s: Node) {
    n <= s
  }

  /** A prefix tree: it holds the empty node and every prefix of its nodes, and
      its edges go from each non-empty node to that node less its last
      element, and nowhere else. */
  ghost predicate PrefixTree(t: Tree) {
    && [] in t.nodes
    && (forall n, k :: n in t.nodes && 0 <= k <= |n| ==> n[..k] in t.nodes)
    && (forall u, v :: (u, v) in t.edges <==> v in t.nodes && |v| > 0 && u == v[..|v| - 1])
  }

  /** In a prefix tree, the children of `n` are its one-element extensions
      among the nodes, so every node other than the empty one has exactly one
      parent. */
  lemma PrefixTreeChildren(t: Tree, n: Node, v: Node)
    requires PrefixTree(t)
    ensures v in Children(t, n) <==> v in t.nodes && |v| > 0 && n == v[..|v| - 1]
  {
    if v in t.nodes && |v| > 0 && n == v[..|v| - 1] {
      assert (n, v) in t.edges;
    }
  }

  /** `makeOccurranceTree(paths)`: for each path, an edge from each prefix to
      the prefix one element longer; then the depth-first tree from the empty
      node, which fails when no path has an element. Every node other than
      the empty one has exactly one incoming edge, so that tree is the whole
      graph. */
  method MakeOccurranceTree(paths: seq<InstancePath>) returns (r: Result<Tree>)
    ensures r.Ok? <==> exists p :: p in paths && |p.elements| > 0
    ensures r.Ok? ==> PrefixTree(r.value)
    ensures r.Ok? ==> forall n :: n in r.value.nodes <==> exists p :: p in paths && Under(n, p)
  {
    var nodes: set<Node> := {};
    var edges: set<(Node, Node)> := {};
    for i := 0 to |paths|
      invariant forall n :: n in nodes <==> exists j :: 0 <= j < i && Under(n, paths[j])
      invariant forall u, v :: (u, v) in edges <==> v in nodes && |v| > 0 && u == v[..|v| - 1]
    {
      var path := paths[i];
      var elems: seq<InstanceId> := [];
      for k := 0 to |path.elements|
        invariant elems == path.elements[..k]
        invariant forall n :: n in nodes <==> (exists j :: 0 <= j < i && Under(n, paths[j])) || (k > 0 && Prefix(n, elems))
        invariant forall u, v :: (u, v) in edges <==> v in nodes && |v| > 0 && u == v[..|v| - 1]
      {
        var before := elems;
        elems := elems + [path.elements[k]];
        assert elems[..|elems| - 1] == before;
        nodes := nodes + {before, elems};
        edges := edges + {(before, elems)};
        assert forall n :: Prefix(n, elems) <==> Prefix(n, before) || n == elems;
      }
      assert path.elements[..|path.elements|] == path.elements;
      assert forall n :: (|path.elements| > 0 && Prefix(n, elems)) <==> Under(n, path);
    }
    if [] !in nodes {
      return Err("KeyError: ()");
    }
    r := Ok(Tree(nodes, edges));
    forall n, k | n in nodes && 0 <= k <= |n|
      ensures n[..k] in nodes
    {
      var j :| 0 <= j < |paths| && Under(n, paths[j]);
      assert Under(n[..k], paths[j]);
    }
  }

  // ---- findStrictSubtrees ----

  /** `n` is marked common: it is a node of both trees with the same children
      in each. Whether its children are common plays no part (the loop over
      them at topology.py:86-88 decides nothing). */
  ghost predicate Common(sup: Tree, sub: Tree, n: Node) {
    n in sub.nodes && n in sup.nodes && Children(sup, n) == Children(sub, n)
  }

  /** The pre-order walk of `sub` reaches `n`: no proper ancestor of `n` is
      common, since the children of a selected node are excluded from the
      walk. */
  ghost predicate Reached(sup: Tree, sub: Tree, n: Node) {
    n in sub.nodes && forall k :: 0 <= k < |n| ==> !Common(sup, sub, n[..k])
  }

  /** The common nodes the walk reaches: the shallowest common nodes. */
  ghost function StrictRoots(sup: Tree, sub: Tree): set<Node> {
    set n | n in sub.nodes && Common(sup, sub, n) && Reached(sup, sub, n)
  }

  /** `n` is a node of `S` no longer than any other. */
  predicate ShallowestIn(S: set<Node>, n: Node) {
    n in S && forall m :: m in S ==> |n| <= |m|
  }

  lemma ShallowestExists(S: set<Node>)
    requires S != {}
    ensures exists n :: ShallowestIn(S, n)
  {
    var x :| x in S;
    if S != {x} {
      ShallowestExists(S - {x});
      var y :| ShallowestIn(S - {x}, y);
      if |x| <= |y| {
        assert ShallowestIn(S, x);
      } else {
        assert ShallowestIn(S, y);
      }
    } else {
      assert ShallowestIn(S, x);
    }
  }

  /** The post-order pass of `findStrictSubtrees`: the common nodes of `sub`,
      visited in any order; a node of `sub` missing from `super` fails. */
  method MarkCommon(sup: Tree, sub: Tree) returns (r: Result<set<Node>>)
    ensures r.Ok? <==> sub.nodes <= sup.nodes
    ensures r.Ok? ==> forall n :: n in r.value <==> Common(sup, sub, n)
  {
    var common: set<Node> := {};
    var todo := sub.nodes;
    while todo != {}
      invariant todo <= sub.nodes && sub.nodes - todo <= sup.nodes
      invariant forall n :: n in common <==> n in sub.nodes - todo && Common(sup, sub, n)
      decreases |todo|
    {
      var path :| path in todo;
      if path !in sup.nodes {
        return Err("KeyError: path");
      }
      if Children(sup, path) == Children(sub, path) {
        common := common + {path};
      }
      todo := todo - {path};
    }
    return Ok(common);
  }

  /** The state of the pre-order pass once the nodes outside `todo` are
      visited. */
  ghost predicate Walked(sup: Tree, sub: Tree, todo: set<Node>, reached: set<Node>, roots: set<Node>, excluded: set<Node>) {
    && todo <= sub.nodes
    && (forall n, m :: n in sub.nodes - todo && m in todo ==> |n| <= |m|)
    && (forall n :: n in reached <==> n in sub.nodes - todo && Reached(sup, sub, n))
    && (forall n :: n in roots <==> n in sub.nodes - todo && Common(sup, sub, n) && Reached(sup, sub, n))
    && (forall n :: n in excluded <==> n in sub.nodes && |n| > 0 && n[..|n| - 1] in roots)
  }

  lemma WalkedAll(sup: Tree, sub: Tree, reached: set<Node>, roots: set<Node>, excluded: set<Node>)
    requires Walked(sup, sub, {}, reached, roots, excluded)
    ensures roots == StrictRoots(sup, sub)
  {
  }

  /** Visit the shallowest node left: when the walk reaches it and it is
      common, select it and exclude its children. */
  method VisitNext(sup: Tree, sub: Tree, common: set<Node>, todo: set<Node>, reached: set<Node>, roots: set<Node>, excluded: set<Node>)
    returns (todo': set<Node>, reached': set<Node>, roots': set<Node>, excluded': set<Node>)
    requires PrefixTree(sub) && todo != {}
    requires forall n :: n in common <==> Common(sup, sub, n)
    requires Walked(sup, sub, todo, reached, roots, excluded)
    ensures Walked(sup, sub, todo', reached', roots', excluded') && |todo'| < |todo|
  {
    ShallowestExists(todo);
    var path :| ShallowestIn(todo, path);
    var visible := path == [] || (path[..|path| - 1] in reached && path !in excluded);
    VisibleReached(sup, sub, path, visible, reached, roots, excluded, todo);
    reached', roots', excluded' := reached, roots, excluded;
    if visible {
      reached' := reached + {path};
      if path in common {
        forall n
          ensures n in Children(sub, path) <==> n in sub.nodes && |n| > 0 && n[..|n| - 1] == path
        {
          PrefixTreeChildren(sub, path, n);
        }
        excluded' := excluded + Children(sub, path);
        roots' := roots + {path};
      }
    }
    todo' := todo - {path};
  }

  /** `findStrictSubtrees(super, sub)`: mark the common nodes of `sub`, then
      walk `sub` from the empty node, selecting each common node reached and
      excluding its children from the rest of the walk. Every node of `sub`
      must be a node of `super`. The walk goes shallowest first instead of
      depth first; whether a node is reached depends on its ancestors only,
      so the selection is the same. */
  method FindStrictSubtrees(sup: Tree, sub: Tree) returns (r: Result<set<Node>>)
    requires PrefixTree(sub)
    ensures r.Ok? <==> sub.nodes <= sup.nodes
    ensures r.Ok? ==> r.value == StrictRoots(sup, sub)
  {
    var marked := MarkCommon(sup, sub);
    if marked.Err? {
      return Err(marked.msg);
    }
    var common := marked.value;
    var roots: set<Node> := {};
    var excluded: set<Node> := {};
    var reached: set<Node> := {};
    var todo := sub.nodes;
    assert Walked(sup, sub, todo, reached, roots, excluded);
    while todo != {}
      invariant Walked(sup, sub, todo, reached, roots, excluded)
      decreases |todo|
    {
      todo, reached, roots, excluded := VisitNext(sup, sub, common, todo, reached, roots, excluded);
    }
    WalkedAll(sup, sub, reached, roots, excluded);
    return Ok(roots);
  }

  /** The walk reaches the shallowest unvisited node exactly when it reaches
      its parent and does not exclude it. */
  lemma VisibleReached(sup: Tree, sub: Tree, path: Node, visible: bool, reached: set<Node>, roots: set<Node>, excluded: set<Node>, todo: set<Node>)
    requires PrefixTree(sub) && path in todo && todo <= sub.nodes
    requires ShallowestIn(todo, path)
    requires forall n :: n in reached <==> n in sub.nodes - todo && Reached(sup, sub, n)
    requires forall n :: n in roots <==> n in sub.nodes - todo && Common(sup, sub, n) && Reached(sup, sub, n)
    requires forall n :: n in excluded <==> n in sub.nodes && |n| > 0 && n[..|n| - 1] in roots
    requires visible == (path == [] || (path[..|path| - 1] in reached && path !in excluded))
    ensures visible <==> Reached(sup, sub, path)
  {
    if path != [] {
      var p := path[..|path| - 1];
      assert p in sub.nodes;
      assert p !in todo;
      assert forall k :: 0 <= k < |p| ==> path[..k] == p[..k];
      assert Reached(sup, sub, path) <==> Reached(sup, sub, p) && !Common(sup, sub, p) by {
        if Reached(sup, sub, p) && !Common(sup, sub, p) {
          forall k | 0 <= k < |path|
            ensures !Common(sup, sub, path[..k])
          {
            if k < |p| {
              assert path[..k] == p[..k];
            } else {
              assert path[..k] == p;
            }
          }
        }
        if Reached(sup, sub, path) {
          assert path[..|p|] == p;
        }
      }
    }
  }

  /** No selected root is a proper descendant of another. */
  lemma StrictRootsAntichain(sup: Tree, sub: Tree, s: Node, t: Node)
    requires s in StrictRoots(sup, sub) && t in StrictRoots(sup, sub)
    ensures forall k :: 0 <= k < |t| ==> t[..k] != s
  {
  }

  /** A node whose prefix of length `k` is common lies under a selected root no
      longer than `k`. */
  lemma {:induction false} CommonBelowRoot(sup: Tree, sub: Tree, n: Node, k: nat)
    requires PrefixTree(sub) && n in sub.nodes && k <= |n| && Common(sup, sub, n[..k])
    ensures exists j :: 0 <= j <= k && n[..j] in StrictRoots(sup, sub)
    decreases k
  {
    if Reached(sup, sub, n[..k]) {
      assert n[..k] in StrictRoots(sup, sub);
    } else {
      var j :| 0 <= j < |n[..k]| && Common(sup, sub, n[..k][..j]);
      assert n[..k][..j] == n[..j];
      CommonBelowRoot(sup, sub, n, j);
    }
  }

  /** A common node is selected exactly when no proper ancestor of it is. */
  lemma SelectedIffNoSelectedAncestor(sup: Tree, sub: Tree, n: Node)
    requires PrefixTree(sub) && Common(sup, sub, n)
    ensures n in StrictRoots(sup, sub) <==> forall k :: 0 <= k < |n| ==> n[..k] !in StrictRoots(sup, sub)
  {
    if n !in StrictRoots(sup, sub) {
      var k :| 0 <= k < |n| && Common(sup, sub, n[..k]);
      CommonBelowRoot(sup, sub, n, k);
    } else {
      forall k | 0 <= k < |n|
        ensures n[..k] !in StrictRoots(sup, sub)
      {
        assert !Common(sup, sub, n[..k]);
      }
    }
  }

  /** A node that is a leaf of both trees, as a part is, lies under a selected
      root. */
  lemma LeavesCovered(sup: Tree, sub: Tree, n: Node)
    requires PrefixTree(sub) && n in sub.nodes && n in sup.nodes
    requires Children(sup, n) == {} && Children(sub, n) == {}
    ensures exists j :: 0 <= j <= |n| && n[..j] in StrictRoots(sup, sub)
  {
    assert n[..|n|] == n;
    CommonBelowRoot(sup, sub, n, |n|);
  }
}
