/** Undirected graphs given as edge lists, the way the modelled code feeds
    `networkx.Graph.add_edge`: an edge `(a, b)` joins `a` and `b` in both
    directions, and the nodes of the graph are the endpoints of its edges
    (plus any nodes added on their own). */
module Graphs {

  /** `x` and `y` are joined by one edge of `E`, in either direction. */
  predicate Adjacent<T(==)>(E: seq<(T, T)>, x: T, y: T) {
    (x, y) in E || (y, x) in E
  }

  /** The endpoints of the edges of `E`. */
  function Nodes<T(==)>(E: seq<(T, T)>): set<T> {
    (set e | e in E :: e.0) + (set e | e in E :: e.1)
  }

  /** `p` is a walk in `E`: consecutive elements are adjacent. */
  ghost predicate IsWalk<T>(E: seq<(T, T)>, p: seq<T>) {
    |p| >= 1 && forall i :: 0 <= i < |p| - 1 ==> Adjacent(E, p[i], p[i + 1])
  }

  /** A chain of edges of `E` leads from `x` to `y` (every value reaches itself). */
  ghost predicate Connected<T(!new)>(E: seq<(T, T)>, x: T, y: T) {
    exists p :: IsWalk(E, p) && p[0] == x && p[|p| - 1] == y
  }

  /** Adding the edges one at a time, no edge joins two values that the edges
      before it already connect: the graph has no cycle (and no self-loop). */
  ghost predicate Forest<T(!new)>(E: seq<(T, T)>) {
    |E| == 0 || (Forest(E[..|E| - 1]) && !Connected(E[..|E| - 1], E[|E| - 1].0, E[|E| - 1].1))
  }

  lemma ConnectedRefl<T(!new)>(E: seq<(T, T)>, x: T)
    ensures Connected(E, x, x)
  {
    assert IsWalk(E, [x]);
  }

  lemma ConnectedEdge<T(!new)>(E: seq<(T, T)>, x: T, y: T)
    requires Adjacent(E, x, y)
    ensures Connected(E, x, y)
  {
    assert IsWalk(E, [x, y]);
  }

  lemma {:induction false} ConnectedSym<T(!new)>(E: seq<(T, T)>, x: T, y: T)
    requires Connected(E, x, y)
    ensures Connected(E, y, x)
  {
    var p :| IsWalk(E, p) && p[0] == x && p[|p| - 1] == y;
    var q := seq(|p|, i requires 0 <= i < |p| => p[|p| - 1 - i]);
    forall i | 0 <= i < |q| - 1
      ensures Adjacent(E, q[i], q[i + 1])
    {
      assert Adjacent(E, p[|p| - 2 - i], p[|p| - 1 - i]);
    }
    assert IsWalk(E, q);
  }

  lemma {:induction false} ConnectedTrans<T(!new)>(E: seq<(T, T)>, x: T, y: T, z: T)
    requires Connected(E, x, y) && Connected(E, y, z)
    ensures Connected(E, x, z)
  {
    var p :| IsWalk(E, p) && p[0] == x && p[|p| - 1] == y;
    var q :| IsWalk(E, q) && q[0] == y && q[|q| - 1] == z;
    var r := p + q[1..];
    forall i | 0 <= i < |r| - 1
      ensures Adjacent(E, r[i], r[i + 1])
    {
      if i < |p| - 1 {
        assert r[i] == p[i] && r[i + 1] == p[i + 1];
      } else {
        var j := i - (|p| - 1);
        assert r[i] == q[j] && r[i + 1] == q[j + 1];
      }
    }
    assert IsWalk(E, r);
  }

  /** Connectivity only grows when edges are added. */
  lemma {:induction false} ConnectedMono<T(!new)>(E: seq<(T, T)>, F: seq<(T, T)>, x: T, y: T)
    requires forall e :: e in E ==> e in F
    requires Connected(E, x, y)
    ensures Connected(F, x, y)
  {
    var p :| IsWalk(E, p) && p[0] == x && p[|p| - 1] == y;
    forall i | 0 <= i < |p| - 1
      ensures Adjacent(F, p[i], p[i + 1])
    {
      assert Adjacent(E, p[i], p[i + 1]);
    }
    assert IsWalk(F, p);
  }

  /** Two different values that are connected are both endpoints of edges. */
  lemma {:induction false} ConnectedEndpoints<T(!new)>(E: seq<(T, T)>, x: T, y: T)
    requires Connected(E, x, y) && x != y
    ensures x in Nodes(E) && y in Nodes(E)
  {
    var p :| IsWalk(E, p) && p[0] == x && p[|p| - 1] == y;
    assert |p| >= 2;
    assert Adjacent(E, p[0], p[1]);
    assert Adjacent(E, p[|p| - 2], p[|p| - 1]);
  }

  /** Every value connected to a member of a set that is closed under
      adjacency is itself a member. */
  lemma {:induction false} ClosedSetContainsConnected<T(!new)>(E: seq<(T, T)>, S: set<T>, x: T, y: T)
    requires x in S
    requires forall u, v :: u in S && Adjacent(E, u, v) ==> v in S
    requires Connected(E, x, y)
    ensures y in S
  {
    var p :| IsWalk(E, p) && p[0] == x && p[|p| - 1] == y;
    var i := 0;
    while i < |p| - 1
      invariant 0 <= i <= |p| - 1
      invariant p[i] in S
    {
      assert Adjacent(E, p[i], p[i + 1]);
      i := i + 1;
    }
  }

  /** The three ways a walk can use one extra edge `(a, b)`. */
  ghost predicate ConnectedVia<T(!new)>(E: seq<(T, T)>, a: T, b: T, x: T, y: T) {
    || Connected(E, x, y)
    || (Connected(E, x, a) && Connected(E, b, y))
    || (Connected(E, x, b) && Connected(E, a, y))
  }

  lemma {:induction false} WalkWithExtraEdge<T(!new)>(E: seq<(T, T)>, a: T, b: T, p: seq<T>)
    requires IsWalk(E + [(a, b)], p)
    ensures ConnectedVia(E, a, b, p[0], p[|p| - 1])
    decreases |p|
  {
    var x := p[0];
    if |p| == 1 {
      ConnectedRefl(E, x);
    } else {
      var q := p[..|p| - 1];
      assert IsWalk(E + [(a, b)], q) by {
        forall i | 0 <= i < |q| - 1
          ensures Adjacent(E + [(a, b)], q[i], q[i + 1])
        {
          assert q[i] == p[i] && q[i + 1] == p[i + 1];
        }
      }
      WalkWithExtraEdge(E, a, b, q);
      var z, w := p[|p| - 2], p[|p| - 1];
      assert q[|q| - 1] == z;
      assert Adjacent(E + [(a, b)], z, w);
      if Adjacent(E, z, w) {
        ConnectedEdge(E, z, w);
        if Connected(E, x, z) {
          ConnectedTrans(E, x, z, w);
        } else if Connected(E, x, a) && Connected(E, b, z) {
          ConnectedTrans(E, b, z, w);
        } else {
          ConnectedTrans(E, a, z, w);
        }
      } else {
        // the last step is the extra edge itself
        assert (z == a && w == b) || (z == b && w == a);
        ConnectedRefl(E, w);
        if z == a && w == b {
          if !Connected(E, x, a) {
            assert Connected(E, x, w);
          }
        } else {
          if !Connected(E, x, b) {
            assert Connected(E, x, w);
          }
        }
      }
    }
  }

  /** Connectivity after adding the edge `(a, b)`, in terms of connectivity before. */
  lemma {:induction false} ConnectedAddEdge<T(!new)>(E: seq<(T, T)>, a: T, b: T, x: T, y: T)
    ensures Connected(E + [(a, b)], x, y) <==> ConnectedVia(E, a, b, x, y)
  {
    var F := E + [(a, b)];
    assert forall e :: e in E ==> e in F;
    if Connected(F, x, y) {
      var p :| IsWalk(F, p) && p[0] == x && p[|p| - 1] == y;
      WalkWithExtraEdge(E, a, b, p);
    }
    if ConnectedVia(E, a, b, x, y) {
      assert Adjacent(F, a, b);
      ConnectedEdge(F, a, b);
      ConnectedSym(F, a, b);
      if Connected(E, x, y) {
        ConnectedMono(E, F, x, y);
      } else if Connected(E, x, a) && Connected(E, b, y) {
        ConnectedMono(E, F, x, a);
        ConnectedMono(E, F, b, y);
        ConnectedTrans(F, x, a, b);
        ConnectedTrans(F, x, b, y);
      } else {
        ConnectedMono(E, F, x, b);
        ConnectedMono(E, F, a, y);
        ConnectedTrans(F, x, b, a);
        ConnectedTrans(F, x, a, y);
      }
    }
  }
}
