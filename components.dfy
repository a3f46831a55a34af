/** Connected components of an undirected edge list, the work `networkx`
    does for `connected_components`, `number_connected_components` and
    `cycle_basis` in the modelled code.

    The algorithm keeps a leader for every node seen so far: two nodes have
    the same leader exactly when the edges processed so far connect them, and
    the leader of a class is its member that was seen first. Nodes are seen in
    the order `networkx` inserts them into a graph (nodes added on their own
    first, then the endpoints of each edge, first endpoint first), so listing
    the classes by leader lists them in the order `connected_components`
    yields them. */
module Components {
  import opened Graphs

  /** The values of `s` in order of first appearance, each once. */
  function Dedup<T(==,!new)>(s: seq<T>): (d: seq<T>)
    ensures forall x :: x in d <==> x in s
  {
    if |s| == 0 then []
    else
      var d := Dedup(s[..|s| - 1]);
      if s[|s| - 1] in d then d else d + [s[|s| - 1]]
  }

  lemma DedupSnoc<T(!new)>(s: seq<T>, x: T)
    ensures Dedup(s + [x]) == if x in s then Dedup(s) else Dedup(s) + [x]
  {
    assert (s + [x])[..|s|] == s;
  }

  /** The endpoints of the edges of `E` in order, first endpoint first. */
  function Endpoints<T>(E: seq<(T, T)>): (s: seq<T>)
    ensures |s| == 2 * |E|
  {
    if |E| == 0 then [] else Endpoints(E[..|E| - 1]) + [E[|E| - 1].0, E[|E| - 1].1]
  }

  lemma {:induction false} EndpointsNodes<T>(E: seq<(T, T)>)
    ensures forall x :: x in Endpoints(E) <==> x in Nodes(E)
  {
    if |E| > 0 {
      var F := E[..|E| - 1];
      EndpointsNodes(F);
      assert E == F + [E[|E| - 1]];
    }
  }

  lemma PartitionsSnoc<T(!new)>(leader: map<T, T>, E: seq<(T, T)>, k: nat)
    requires k < |E|
    requires Partitions(leader, E[..k] + [(E[k].0, E[k].1)])
    ensures Partitions(leader, E[..k + 1])
  {
    assert E[..k] + [(E[k].0, E[k].1)] == E[..k + 1];
  }

  lemma SliceAll<T>(s: seq<T>)
    ensures s[..|s|] == s && s[..0] == []
  {
  }

  /** The edge-by-edge characterisation of `Forest` grows one edge at a time. */
  lemma ForestSnoc<T(!new)>(E: seq<(T, T)>, k: nat, forest: bool, joined: bool)
    requires k < |E|
    requires forest <==> Forest(E[..k])
    requires joined <==> Connected(E[..k], E[k].0, E[k].1)
    ensures forest && !joined <==> Forest(E[..k + 1])
  {
    assert E[..k + 1][..k] == E[..k];
  }

  /** `pos` maps every value of `order` to its position there. */
  ghost predicate Indexed<T(!new)>(order: seq<T>, pos: map<T, nat>) {
    && (forall x :: x in pos ==> pos[x] < |order| && order[pos[x]] == x)
    && (forall i :: 0 <= i < |order| ==> order[i] in pos && pos[order[i]] == i)
  }

  /** `y` is labelled and is its own leader. */
  predicate IsLeader<T(==)>(leader: map<T, T>, y: T) {
    y in leader && leader[y] == y
  }

  /** `y` is listed no later than `x`. */
  predicate NoLater<T(==)>(pos: map<T, nat>, y: T, x: T) {
    y in pos && x in pos && pos[y] <= pos[x]
  }

  /** The members of the class led by `h`. */
  function ClassOf<T(==)>(leader: map<T, T>, h: T): set<T> {
    set x | x in leader && leader[x] == h
  }

  /** Every listed node is labelled, its leader leads itself, and no node is
      listed before its leader. */
  ghost predicate Ranked<T(!new)>(leader: map<T, T>, pos: map<T, nat>) {
    && leader.Keys == pos.Keys
    && (forall x :: x in leader ==> IsLeader(leader, leader[x]))
    && (forall x :: x in leader ==> NoLater(pos, leader[x], x))
  }

  /** Every endpoint of `E` is labelled, and two labelled nodes share a leader
      exactly when `E` connects them. */
  ghost predicate Partitions<T(!new)>(leader: map<T, T>, E: seq<(T, T)>) {
    && Nodes(E) <= leader.Keys
    && (forall x, y {:trigger Connected(E, x, y)} :: x in leader && y in leader ==> (leader[x] == leader[y] <==> Connected(E, x, y)))
  }

  /** Move every member of the class led by `l` to the class led by `w`. */
  function Relabel<T(==)>(leader: map<T, T>, l: T, w: T): (r: map<T, T>)
    ensures r.Keys == leader.Keys
  {
    map x | x in leader :: if leader[x] == l then w else leader[x]
  }

  /** `r` is `leader` with the class led by `l` moved to `w`. */
  ghost predicate Relabelled<T(!new)>(leader: map<T, T>, r: map<T, T>, l: T, w: T) {
    && r.Keys == leader.Keys
    && forall x :: x in leader ==> r[x] == if leader[x] == l then w else leader[x]
  }

  lemma RelabelFacts<T(!new)>(leader: map<T, T>, l: T, w: T)
    ensures Relabelled(leader, Relabel(leader, l, w), l, w)
  {
  }

  lemma RelabelLeads<T(!new)>(leader: map<T, T>, r: map<T, T>, l: T, w: T)
    requires forall x :: x in leader ==> IsLeader(leader, leader[x])
    requires Relabelled(leader, r, l, w)
    requires IsLeader(leader, w) && l != w
    ensures forall x :: x in r ==> IsLeader(r, r[x])
  {
    forall x | x in r
      ensures IsLeader(r, r[x])
    {
      var y := leader[x];
      assert IsLeader(leader, y);
      if y == l {
        assert r[x] == w && r[w] == w;
      } else {
        assert r[x] == y && r[y] == y;
      }
    }
  }

  lemma RelabelPrecedes<T(!new)>(leader: map<T, T>, r: map<T, T>, pos: map<T, nat>, l: T, w: T)
    requires leader.Keys == pos.Keys
    requires forall x :: x in leader ==> NoLater(pos, leader[x], x)
    requires Relabelled(leader, r, l, w)
    requires l in pos && w in pos && pos[w] < pos[l]
    ensures forall x :: x in r ==> NoLater(pos, r[x], x)
  {
  }

  lemma RelabelRanked<T(!new)>(leader: map<T, T>, r: map<T, T>, pos: map<T, nat>, l: T, w: T)
    requires Ranked(leader, pos)
    requires Relabelled(leader, r, l, w)
    requires IsLeader(leader, l) && IsLeader(leader, w) && pos[w] < pos[l]
    ensures Ranked(r, pos)
  {
    RelabelLeads(leader, r, l, w);
    RelabelPrecedes(leader, r, pos, l, w);
  }

  lemma RelabelPartitions<T(!new)>(leader: map<T, T>, r: map<T, T>, E: seq<(T, T)>, a: T, b: T, l: T, w: T)
    requires Partitions(leader, E)
    requires Relabelled(leader, r, l, w)
    requires a in leader && b in leader
    requires (l == leader[a] && w == leader[b]) || (l == leader[b] && w == leader[a])
    requires l != w
    ensures Partitions(r, E + [(a, b)])
  {
    assert Nodes(E + [(a, b)]) == Nodes(E) + {a, b};
    forall x, y | x in r && y in r
      ensures r[x] == r[y] <==> Connected(E + [(a, b)], x, y)
    {
      ConnectedAddEdge(E, a, b, x, y);
    }
  }

  lemma SameLeaderPartitions<T(!new)>(leader: map<T, T>, E: seq<(T, T)>, a: T, b: T)
    requires Partitions(leader, E)
    requires a in leader && b in leader && leader[a] == leader[b]
    ensures Partitions(leader, E + [(a, b)])
  {
    assert Nodes(E + [(a, b)]) == Nodes(E) + {a, b};
    forall x, y | x in leader && y in leader
      ensures leader[x] == leader[y] <==> Connected(E + [(a, b)], x, y)
    {
      ConnectedAddEdge(E, a, b, x, y);
    }
  }

  /** With no edges, every node is alone in its class. */
  lemma SingletonsPartition<T(!new)>(leader: map<T, T>)
    requires forall x :: x in leader ==> leader[x] == x
    ensures Partitions(leader, [])
  {
    forall x, y | x in leader && y in leader
      ensures leader[x] == leader[y] <==> Connected([], x, y)
    {
      if x == y {
        ConnectedRefl([], x);
      } else if Connected([], x, y) {
        ConnectedEndpoints([], x, y);
      }
    }
  }

  /** Record the edge `(a, b)` between two labelled nodes: the classes of `a`
      and `b` merge under the leader of the two that was listed first. */
  method Merge<T(==,!new)>(leader: map<T, T>, ghost order: seq<T>, pos: map<T, nat>, ghost E: seq<(T, T)>, a: T, b: T)
    returns (leader': map<T, T>)
    requires Indexed(order, pos) && Ranked(leader, pos) && Partitions(leader, E)
    requires a in leader && b in leader
    ensures Ranked(leader', pos) && Partitions(leader', E + [(a, b)])
    ensures leader'.Keys == leader.Keys
  {
    var la, lb := leader[a], leader[b];
    if la == lb {
      SameLeaderPartitions(leader, E, a, b);
      leader' := leader;
    } else {
      var w, l := la, lb;
      if pos[lb] < pos[la] {
        w, l := lb, la;
      }
      assert pos[w] != pos[l] by {
        assert order[pos[w]] == w && order[pos[l]] == l;
      }
      leader' := Relabel(leader, l, w);
      RelabelFacts(leader, l, w);
      RelabelRanked(leader, leader', pos, l, w);
      RelabelPartitions(leader, leader', E, a, b, l, w);
    }
  }

  /** List the values of `s` in order of first appearance, with the position
      of each in that list. */
  method FirstSeen<T(==,!new)>(s: seq<T>) returns (order: seq<T>, pos: map<T, nat>)
    ensures Indexed(order, pos)
    ensures order == Dedup(s)
    ensures forall x :: x in pos <==> x in s
  {
    order, pos := [], map[];
    for i := 0 to |s|
      invariant SeenUpTo(s, i, order, pos)
    {
      var x := s[i];
      SeenNext(s, i, order, pos);
      if x !in pos {
        pos := pos[x := |order|];
        order := order + [x];
      }
    }
    assert s[..|s|] == s;
  }

  /** `order` and `pos` list the values of the first `i` entries of `s`. */
  ghost predicate SeenUpTo<T(!new)>(s: seq<T>, i: nat, order: seq<T>, pos: map<T, nat>) {
    && i <= |s| && Indexed(order, pos) && order == Dedup(s[..i])
    && forall x :: x in pos <==> x in s[..i]
  }

  /** Listing entry `i` when it is new lists one more entry. */
  lemma SeenNext<T(!new)>(s: seq<T>, i: nat, order: seq<T>, pos: map<T, nat>)
    requires i < |s| && SeenUpTo(s, i, order, pos)
    ensures s[i] in pos ==> SeenUpTo(s, i + 1, order, pos)
    ensures s[i] !in pos ==> SeenUpTo(s, i + 1, order + [s[i]], pos[s[i] := |order|])
  {
    assert s[..i + 1] == s[..i] + [s[i]];
    DedupSnoc(s[..i], s[i]);
  }

  /** Every listed node alone in its own class. */
  method Singletons<T(==,!new)>(order: seq<T>, pos: map<T, nat>) returns (leader: map<T, T>)
    requires Indexed(order, pos)
    ensures Ranked(leader, pos) && Partitions(leader, [])
  {
    leader := map[];
    for i := 0 to |order|
      invariant forall x :: x in leader <==> x in pos && pos[x] < i
      invariant forall x :: x in leader ==> leader[x] == x
    {
      leader := leader[order[i] := order[i]];
    }
    SingletonsPartition(leader);
  }

  /** The labelling after the first `k` edges of `E`, and whether those
      edges form a forest. */
  ghost predicate Grown<T(!new)>(leader: map<T, T>, order: seq<T>, pos: map<T, nat>, E: seq<(T, T)>, k: nat, forest: bool) {
    && k <= |E|
    && Indexed(order, pos) && Ranked(leader, pos) && Nodes(E) <= pos.Keys
    && Partitions(leader, E[..k])
    && (forest <==> Forest(E[..k]))
  }

  /** Record the edge `E[k]`. */
  method AddEdge<T(==,!new)>(leader: map<T, T>, ghost order: seq<T>, pos: map<T, nat>, E: seq<(T, T)>, k: nat, forest: bool)
    returns (leader': map<T, T>, forest': bool)
    requires k < |E| && Grown(leader, order, pos, E, k, forest)
    ensures Grown(leader', order, pos, E, k + 1, forest')
  {
    var a, b := E[k].0, E[k].1;
    assert E[k] in E;
    var joined := leader[a] == leader[b];
    assert joined <==> Connected(E[..k], a, b);
    ForestSnoc(E, k, forest, joined);
    forest' := forest && !joined;
    leader' := Merge(leader, order, pos, E[..k], a, b);
    PartitionsSnoc(leader', E, k);
  }

  /** Record the edges of `E` in order, starting from the labelling of the
      nodes alone; `forest` tells whether no edge joined two nodes that the
      edges before it already connected. */
  method AddEdges<T(==,!new)>(leader0: map<T, T>, ghost order: seq<T>, pos: map<T, nat>, E: seq<(T, T)>)
    returns (leader: map<T, T>, forest: bool)
    requires Grown(leader0, order, pos, E, 0, true)
    ensures Grown(leader, order, pos, E, |E|, forest)
  {
    leader, forest := leader0, true;
    for k := 0 to |E|
      invariant Grown(leader, order, pos, E, k, forest)
    {
      leader, forest := AddEdge(leader, order, pos, E, k, forest);
    }
  }

  /** Label every node of `nodes` and every endpoint of `E` by its connected
      component, and decide whether `E` has no cycle. `order` lists the nodes
      in the order a graph built from `nodes` and then `E` first meets them. */
  method Classify<T(==,!new)>(nodes: seq<T>, E: seq<(T, T)>)
    returns (leader: map<T, T>, order: seq<T>, pos: map<T, nat>, forest: bool)
    ensures Indexed(order, pos) && Ranked(leader, pos) && Partitions(leader, E)
    ensures order == Dedup(nodes + Endpoints(E))
    ensures forall x :: x in leader <==> x in nodes || x in Nodes(E)
    ensures forest <==> Forest(E)
  {
    order, pos := FirstSeen(nodes + Endpoints(E));
    EndpointsNodes(E);
    var leader0 := Singletons(order, pos);
    SliceAll(E);
    leader, forest := AddEdges(leader0, order, pos, E);
  }

  /** The leaders of a labelling, listed in the order they appear in `order`. */
  method Leaders<T(==,!new)>(leader: map<T, T>, order: seq<T>, pos: map<T, nat>)
    returns (heads: seq<T>)
    requires Indexed(order, pos) && Ranked(leader, pos)
    ensures forall i :: 0 <= i < |heads| ==> IsLeader(leader, heads[i])
    ensures forall i :: 0 <= i < |heads| ==> heads[i] in pos
    ensures forall i, j :: 0 <= i < j < |heads| ==> pos[heads[i]] < pos[heads[j]]
    ensures forall x :: x in leader ==> leader[x] in heads
  {
    heads := [];
    for i := 0 to |order|
      invariant forall k :: 0 <= k < |heads| ==> IsLeader(leader, heads[k])
      invariant forall k :: 0 <= k < |heads| ==> heads[k] in pos && pos[heads[k]] < i
      invariant forall k, m :: 0 <= k < m < |heads| ==> pos[heads[k]] < pos[heads[m]]
      invariant forall k :: 0 <= k < i && IsLeader(leader, order[k]) ==> order[k] in heads
    {
      var x := order[i];
      if leader[x] == x {
        heads := heads + [x];
      }
    }
    LeadersListed(leader, order, pos, heads);
  }

  /** Listing every leader met in `order` lists the leader of every node. */
  lemma LeadersListed<T(!new)>(leader: map<T, T>, order: seq<T>, pos: map<T, nat>, heads: seq<T>)
    requires Indexed(order, pos) && Ranked(leader, pos)
    requires forall k :: 0 <= k < |order| && IsLeader(leader, order[k]) ==> order[k] in heads
    ensures forall x :: x in leader ==> leader[x] in heads
  {
    forall x | x in leader
      ensures leader[x] in heads
    {
      var h := leader[x];
      assert order[pos[h]] == h;
    }
  }

  lemma ClassOfFacts<T>(leader: map<T, T>, h: T)
    ensures forall x :: x in ClassOf(leader, h) <==> x in leader && leader[x] == h
  {
  }

  /** A node outside a labelling that covers the endpoints of `E` is connected
      to nothing but itself. */
  lemma ConnectedOutside<T(!new)>(leader: map<T, T>, E: seq<(T, T)>, x: T, y: T)
    requires Nodes(E) <= leader.Keys && x in leader && y !in leader
    ensures !Connected(E, x, y)
  {
    if Connected(E, x, y) {
      ConnectedEndpoints(E, x, y);
    }
  }

  /** The classes of a labelling, one per leader, in the order of `heads`. */
  lemma ClassesFacts<T(!new)>(leader: map<T, T>, pos: map<T, nat>, E: seq<(T, T)>, heads: seq<T>, comps: seq<set<T>>)
    requires Ranked(leader, pos) && Partitions(leader, E)
    requires forall i :: 0 <= i < |heads| ==> IsLeader(leader, heads[i])
    requires forall i, j :: 0 <= i < j < |heads| ==> heads[i] in pos && heads[j] in pos && pos[heads[i]] < pos[heads[j]]
    requires forall x :: x in leader ==> leader[x] in heads
    requires |comps| == |heads| && forall i :: 0 <= i < |heads| ==> comps[i] == ClassOf(leader, heads[i])
    ensures forall i :: 0 <= i < |comps| ==> heads[i] in comps[i]
    ensures forall i, j :: 0 <= i < j < |comps| ==> comps[i] !! comps[j]
    ensures forall x :: x in leader <==> exists i :: 0 <= i < |comps| && x in comps[i]
    ensures forall i, x, y :: 0 <= i < |comps| && x in comps[i] ==> (y in comps[i] <==> Connected(E, x, y))
    ensures forall i, y :: 0 <= i < |comps| && y in comps[i] ==> pos[heads[i]] <= pos[y]
  {
    forall i | 0 <= i < |comps|
      ensures heads[i] in comps[i]
    {
      ClassOfFacts(leader, heads[i]);
    }
    forall i, j | 0 <= i < j < |comps|
      ensures comps[i] !! comps[j]
    {
      ClassOfFacts(leader, heads[i]);
      ClassOfFacts(leader, heads[j]);
    }
    forall x | x in leader
      ensures exists i :: 0 <= i < |comps| && x in comps[i]
    {
      var i :| 0 <= i < |heads| && heads[i] == leader[x];
      ClassOfFacts(leader, heads[i]);
    }
    forall i, x, y | 0 <= i < |comps| && x in comps[i]
      ensures y in comps[i] <==> Connected(E, x, y)
    {
      ClassOfFacts(leader, heads[i]);
      if y !in leader {
        ConnectedOutside(leader, E, x, y);
      }
    }
    forall i, y | 0 <= i < |comps| && y in comps[i]
      ensures pos[heads[i]] <= pos[y]
    {
      ClassOfFacts(leader, heads[i]);
      assert NoLater(pos, leader[y], y);
    }
  }

  /** Some member of `A` comes in `order` before every member of `B`. */
  ghost predicate SeenBefore<T>(order: seq<T>, A: set<T>, B: set<T>) {
    exists k :: 0 <= k < |order| && order[k] in A && forall l :: 0 <= l <= k ==> order[l] !in B
  }

  /** The sets come in the order in which `order` first meets them. */
  ghost predicate FirstSeenOrder<T>(comps: seq<set<T>>, order: seq<T>) {
    forall i, j :: 0 <= i < j < |comps| ==> SeenBefore(order, comps[i], comps[j])
  }

  /** Components whose heads are their first members in `order`, with the
      heads in increasing order, come in the order `order` first meets them. */
  lemma HeadsFirstSeen<T(!new)>(comps: seq<set<T>>, heads: seq<T>, order: seq<T>, pos: map<T, nat>)
    requires Indexed(order, pos) && |heads| == |comps|
    requires forall i :: 0 <= i < |comps| ==> heads[i] in comps[i]
    requires forall i, y :: 0 <= i < |comps| && y in comps[i] ==> y in pos && heads[i] in pos && pos[heads[i]] <= pos[y]
    requires forall i, j :: 0 <= i < j < |comps| ==> heads[i] in pos && heads[j] in pos && pos[heads[i]] < pos[heads[j]]
    ensures FirstSeenOrder(comps, order)
  {
    forall i, j | 0 <= i < j < |comps|
      ensures SeenBefore(order, comps[i], comps[j])
    {
      var k := pos[heads[i]];
      forall l | 0 <= l <= k
        ensures order[l] !in comps[j]
      {
        assert pos[order[l]] == l;
      }
      assert order[k] == heads[i];
    }
  }

  /** The connected components of the graph with nodes `nodes` and edges `E`,
      listed by their member seen first, as `connected_components` yields
      them; `heads[i]` is that member of `comps[i]`. `forest` tells whether
      the edges, added in order, never close a cycle. */
  method ConnectedComponents<T(==,!new)>(nodes: seq<T>, E: seq<(T, T)>)
    returns (comps: seq<set<T>>, heads: seq<T>, order: seq<T>, pos: map<T, nat>, forest: bool)
    ensures Indexed(order, pos) && order == Dedup(nodes + Endpoints(E))
    ensures |heads| == |comps|
    ensures forall i :: 0 <= i < |comps| ==> heads[i] in comps[i]
    ensures forall i, j :: 0 <= i < j < |comps| ==> comps[i] !! comps[j]
    ensures forall x :: (x in nodes || x in Nodes(E)) <==> exists i :: 0 <= i < |comps| && x in comps[i]
    ensures forall i, x, y :: 0 <= i < |comps| && x in comps[i] ==> (y in comps[i] <==> Connected(E, x, y))
    ensures forall i, y :: 0 <= i < |comps| && y in comps[i] ==> y in pos && heads[i] in pos && pos[heads[i]] <= pos[y]
    ensures forall i, j :: 0 <= i < j < |comps| ==> heads[i] in pos && heads[j] in pos && pos[heads[i]] < pos[heads[j]]
    ensures forest <==> Forest(E)
  {
    var leader;
    leader, order, pos, forest := Classify(nodes, E);
    heads := Leaders(leader, order, pos);
    comps := seq(|heads|, i requires 0 <= i < |heads| => ClassOf(leader, heads[i]));
    ClassesFacts(leader, pos, E, heads, comps);
  }
}
