/** Mass properties (`onshape_mjcf/util/inertial.py`): a body's centroid,
    mass and inertia tensor, possibly still expressed in another frame, and
    their combination into the mass properties of a rigid group of bodies by
    the parallel axis theorem. numpy's floating point is modelled by `real`. */
module Inertial {
  import opened Wrappers
  import opened Linalg

  /** `InertialData`, and `TransformedInertialData`, whose values are given
      in the frame that `transform` maps into the body's frame. */
  datatype InertialData =
    | InertialData(centroid: V3, mass: real, inertia: M3)
    | TransformedInertialData(centroid: V3, mass: real, inertia: M3, transform: M4)

  /** `normalize()`: the values in the body's frame; the centroid is mapped
      by the transform and the inertia turned by its rotation. */
  function Normalize(i: InertialData): (r: InertialData)
    ensures r.InertialData? && r.mass == i.mass
  {
    match i
    case InertialData(_, _, _) => i
    case TransformedInertialData(centroid, mass, inertia, transform) =>
      var rotation := transform.R;
      InertialData(Apply(transform, centroid), mass, MatMul(MatMul(rotation, inertia), Transpose(rotation)))
  }

  /** Normalising twice is normalising once. */
  lemma NormalizeIdempotent(i: InertialData)
    ensures Normalize(Normalize(i)) == Normalize(i)
  {
  }

  /** The identity transform changes nothing. */
  lemma NormalizeIdentity(c: V3, m: real, I: M3)
    ensures Normalize(TransformedInertialData(c, m, I, Identity4)) == InertialData(c, m, I)
  {
    MatVecIdentity(c);
    MatMulIdentity(I);
    assert Transpose(Identity) == Identity;
  }

  /** A pure translation moves the centroid by its offset and keeps the
      inertia. */
  lemma NormalizeTranslation(c: V3, m: real, I: M3, t: V3, p: V3, s: real)
    ensures Normalize(TransformedInertialData(c, m, I, M4(Identity, t, p, s))) == InertialData(Add(c, t), m, I)
  {
    MatVecIdentity(c);
    MatMulIdentity(I);
    assert Transpose(Identity) == Identity;
  }

  /** A symmetric inertia stays symmetric. */
  lemma NormalizeSymmetric(i: InertialData)
    requires Symmetric(i.inertia)
    ensures Symmetric(Normalize(i).inertia)
  {
    if i.TransformedInertialData? {
      CongruenceSymmetric(i.transform.R, i.inertia);
    }
  }

  // ---- sums over a list ----

  /** `f(s[0]) + f(s[1]) + ...`, added from the left. */
  function Sum<T, U>(s: seq<T>, f: T -> U, zero: U, add: (U, U) -> U): U {
    if |s| == 0 then zero else add(Sum(s[..|s| - 1], f, zero, add), f(s[|s| - 1]))
  }

  /** `add` is associative and commutative. */
  ghost predicate Abelian<U(!new)>(add: (U, U) -> U) {
    && (forall a, b :: add(a, b) == add(b, a))
    && (forall a, b, c :: add(add(a, b), c) == add(a, add(b, c)))
  }

  /** Removing the element at `j` takes its term out of the sum. */
  lemma {:induction false} SumRemove<T, U(!new)>(s: seq<T>, j: nat, f: T -> U, zero: U, add: (U, U) -> U)
    requires Abelian(add) && j < |s|
    ensures Sum(s, f, zero, add) == add(Sum(s[..j] + s[j + 1..], f, zero, add), f(s[j]))
  {
    var n := |s| - 1;
    if j < n {
      var init := s[..n];
      SumRemove(init, j, f, zero, add);
      var rest := s[..j] + s[j + 1..];
      assert rest[..|rest| - 1] == init[..j] + init[j + 1..];
      assert rest[|rest| - 1] == s[n];
      var F := Sum(init[..j] + init[j + 1..], f, zero, add);
      calc {
        Sum(s, f, zero, add);
        add(add(F, f(s[j])), f(s[n]));
        add(F, add(f(s[j]), f(s[n])));
        add(F, add(f(s[n]), f(s[j])));
        add(add(F, f(s[n])), f(s[j]));
      }
    } else {
      assert s[..j] + s[j + 1..] == s[..n];
    }
  }

  lemma MultisetCancel<T>(A: multiset<T>, B: multiset<T>, x: T)
    requires A + multiset{x} == B + multiset{x}
    ensures A == B
  {
    forall y
      ensures A[y] == B[y]
    {
      assert (A + multiset{x})[y] == A[y] + multiset{x}[y];
      assert (B + multiset{x})[y] == B[y] + multiset{x}[y];
    }
  }

  /** A sum does not depend on the order of its terms. */
  lemma {:induction false} SumPermutation<T, U(!new)>(a: seq<T>, b: seq<T>, f: T -> U, zero: U, add: (U, U) -> U)
    requires Abelian(add) && multiset(a) == multiset(b)
    ensures Sum(a, f, zero, add) == Sum(b, f, zero, add)
  {
    if |b| > 0 {
      var x := b[|b| - 1];
      assert x in multiset(a);
      var j :| 0 <= j < |a| && a[j] == x;
      var a' := a[..j] + a[j + 1..];
      assert a == a[..j] + [a[j]] + a[j + 1..];
      assert b == b[..|b| - 1] + [x];
      assert multiset(a) == multiset(a[..j]) + multiset{x} + multiset(a[j + 1..]);
      assert multiset(b) == multiset(b[..|b| - 1]) + multiset{x};
      assert multiset(a') == multiset(a[..j]) + multiset(a[j + 1..]);
      assert multiset(a') + multiset{x} == multiset(b[..|b| - 1]) + multiset{x};
      MultisetCancel(multiset(a'), multiset(b[..|b| - 1]), x);
      SumPermutation(a', b[..|b| - 1], f, zero, add);
      SumRemove(a, j, f, zero, add);
    } else {
      assert |a| == 0;
    }
  }

  /** The sums of one and of two terms. */
  lemma SumSmall<T, U>(x: T, y: T, f: T -> U, zero: U, add: (U, U) -> U)
    ensures Sum([x], f, zero, add) == add(zero, f(x))
    ensures Sum([x, y], f, zero, add) == add(add(zero, f(x)), f(y))
  {
    assert [x][..0] == [];
    assert [x, y][..1] == [x];
  }

  function RealAdd(a: real, b: real): real {
    a + b
  }

  lemma AdditionsAbelian()
    ensures Abelian(RealAdd) && Abelian(Add) && Abelian(MAdd)
  {
  }

  function MassOf(i: InertialData): real {
    i.mass
  }

  /** `inertial.mass * inertial.centroid` of the normalised value. */
  function MomentOf(i: InertialData): V3 {
    Scale(i.mass, Normalize(i).centroid)
  }

  /** The inertia of the normalised `i` about the point `c`, by the parallel
      axis theorem. */
  function Parallel(i: InertialData, c: V3): M3 {
    var n := Normalize(i);
    var d := Sub(c, n.centroid);
    MAdd(n.inertia, MScale(n.mass, MSub(MScale(Dot(d, d), Identity), Outer(d, d))))
  }

  /** `sum(inertial.mass for ...)`. */
  function TotalMass(s: seq<InertialData>): real {
    Sum(s, MassOf, 0.0, RealAdd)
  }

  /** `sum(inertial.mass * inertial.centroid for ...)`. */
  function TotalMoment(s: seq<InertialData>): V3 {
    Sum(s, MomentOf, Zero, Add)
  }

  /** The combined inertia about `c`. */
  function TotalInertia(s: seq<InertialData>, c: V3): M3 {
    Sum(s, (i: InertialData) => Parallel(i, c), ZeroM, MAdd)
  }

  /** `combineInertials(inertials)`: the total mass, the mass-weighted mean
      of the centroids, and the sum of the inertias moved to that point. An
      empty list is an error. */
  function Combine(s: seq<InertialData>): (r: Result<InertialData>)
    requires |s| == 0 || TotalMass(s) != 0.0
    ensures r.Err? <==> |s| == 0
  {
    if |s| == 0 then Err("Empty inertials list provided")
    else
      var m := TotalMass(s);
      var c := Scale(1.0 / m, TotalMoment(s));
      Ok(InertialData(c, m, TotalInertia(s, c)))
  }

  /** The combined body has the total mass, its centroid is the centre of
      mass (`m c = sum of m_i c_i`), and it is a plain `InertialData`. */
  lemma CombineMassAndCentroid(s: seq<InertialData>)
    requires |s| > 0 && TotalMass(s) != 0.0
    ensures Combine(s).value.InertialData?
    ensures Combine(s).value.mass == TotalMass(s)
    ensures Scale(Combine(s).value.mass, Combine(s).value.centroid) == TotalMoment(s)
  {
    var m := TotalMass(s);
    var v := TotalMoment(s);
    assert m * (1.0 / m * v.x) == v.x;
    assert m * (1.0 / m * v.y) == v.y;
    assert m * (1.0 / m * v.z) == v.z;
  }

  /** The order of the list does not matter. */
  lemma CombinePermutation(a: seq<InertialData>, b: seq<InertialData>)
    requires multiset(a) == multiset(b)
    requires |a| == 0 || TotalMass(a) != 0.0
    ensures |b| == 0 || TotalMass(b) != 0.0
    ensures Combine(a) == Combine(b)
  {
    AdditionsAbelian();
    assert |a| == |multiset(a)| == |b|;
    SumPermutation(a, b, MassOf, 0.0, RealAdd);
    SumPermutation(a, b, MomentOf, Zero, Add);
    if |a| > 0 {
      var c := Scale(1.0 / TotalMass(a), TotalMoment(a));
      SumPermutation(a, b, (i: InertialData) => Parallel(i, c), ZeroM, MAdd);
    }
  }

  /** The parallel-axis term of a symmetric inertia is symmetric. */
  lemma ParallelSymmetric(i: InertialData, c: V3)
    requires Symmetric(i.inertia)
    ensures Symmetric(Parallel(i, c))
  {
    NormalizeSymmetric(i);
  }

  lemma {:induction false} TotalInertiaSymmetric(s: seq<InertialData>, c: V3)
    requires forall k :: 0 <= k < |s| ==> Symmetric(s[k].inertia)
    ensures Symmetric(TotalInertia(s, c))
  {
    if |s| > 0 {
      TotalInertiaSymmetric(s[..|s| - 1], c);
      ParallelSymmetric(s[|s| - 1], c);
    }
  }

  /** Symmetric inertias combine into a symmetric inertia. */
  lemma CombineSymmetric(s: seq<InertialData>)
    requires |s| > 0 && TotalMass(s) != 0.0
    requires forall k :: 0 <= k < |s| ==> Symmetric(s[k].inertia)
    ensures Symmetric(Combine(s).value.inertia)
  {
    TotalInertiaSymmetric(s, Combine(s).value.centroid);
  }

  /** A single body combines into itself, normalised. */
  lemma CombineSingle(i: InertialData)
    requires i.mass != 0.0
    ensures TotalMass([i]) == i.mass && Combine([i]) == Ok(Normalize(i))
  {
    var n := Normalize(i);
    SumSmall(i, i, MassOf, 0.0, RealAdd);
    SumSmall(i, i, MomentOf, Zero, Add);
    ScaleBack(i.mass, n.centroid);
    var c := Scale(1.0 / i.mass, TotalMoment([i]));
    assert c == n.centroid;
    SumSmall(i, i, (i: InertialData) => Parallel(i, c), ZeroM, MAdd);
    ParallelAtOwnCentroid(i);
  }

  /** Dividing the moment of a single mass by that mass gives back its
      centroid. */
  lemma ScaleBack(m: real, v: V3)
    requires m != 0.0
    ensures Scale(1.0 / m, Add(Zero, Scale(m, v))) == v
  {
    assert 1.0 / m * (0.0 + m * v.x) == v.x;
    assert 1.0 / m * (0.0 + m * v.y) == v.y;
    assert 1.0 / m * (0.0 + m * v.z) == v.z;
  }

  /** About its own centroid a body has no parallel-axis term. */
  lemma ParallelAtOwnCentroid(i: InertialData)
    ensures MAdd(ZeroM, Parallel(i, Normalize(i).centroid)) == Normalize(i).inertia
  {
    var n := Normalize(i);
    NoOffset(n.inertia, n.mass, n.centroid);
  }

  lemma NoOffset(I: M3, m: real, c: V3)
    ensures var d := Sub(c, c);
      MAdd(ZeroM, MAdd(I, MScale(m, MSub(MScale(Dot(d, d), Identity), Outer(d, d))))) == I
  {
    assert Sub(c, c) == Zero;
    ZeroOffset(m);
  }

  lemma ZeroOffset(m: real)
    ensures MScale(m, MSub(MScale(Dot(Zero, Zero), Identity), Outer(Zero, Zero))) == ZeroM
  {
    assert Outer(Zero, Zero) == ZeroM;
    assert MScale(Dot(Zero, Zero), Identity) == ZeroM;
  }

  /** About the origin, the offset is the centroid itself. */
  lemma ParallelAtOrigin(c: V3, m: real, I: M3)
    ensures Parallel(InertialData(c, m, I), Zero) == MAdd(I, MScale(m, MSub(MScale(Dot(c, c), Identity), Outer(c, c))))
  {
    var d := Sub(Zero, c);
    assert Dot(d, d) == Dot(c, c);
    assert Outer(d, d) == Outer(c, c);
  }

  /** `|c|^2 I - c c^T`, the parallel-axis term of a unit mass at offset `c`. */
  function Offset(c: V3): M3 {
    MSub(MScale(Dot(c, c), Identity), Outer(c, c))
  }

  /** Opposite offsets have the same parallel-axis term. */
  lemma OffsetOpposite(c: V3)
    ensures Offset(Scale(-1.0, c)) == Offset(c)
  {
    var d := Scale(-1.0, c);
    assert Dot(d, d) == Dot(c, c);
    assert Outer(d, d) == Outer(c, c);
  }

  lemma ScaleDouble(m: real, D: M3)
    ensures MAdd(MScale(m, D), MScale(m, D)) == MScale(2.0 * m, D)
  {
  }

  /** Two bodies of equal mass whose centroids are opposite each other
      combine at the origin, with the sum of their inertias plus the
      parallel-axis term of twice the mass at either centroid. */
  lemma CombineOppositePair(a: InertialData, b: InertialData)
    requires a.mass == b.mass && a.mass != 0.0
    requires Add(Normalize(a).centroid, Normalize(b).centroid) == Zero
    ensures TotalMass([a, b]) == 2.0 * a.mass
    ensures Combine([a, b]) == Ok(InertialData(Zero, 2.0 * a.mass,
      MAdd(MAdd(Normalize(a).inertia, Normalize(b).inertia), MScale(2.0 * a.mass, Offset(Normalize(a).centroid)))))
  {
    SumSmall(a, b, MassOf, 0.0, RealAdd);
    OppositeMoments(a, b);
    assert Scale(1.0 / (2.0 * a.mass), Zero) == Zero;
    OppositeInertia(a, b);
  }

  /** The moments of the two bodies cancel. */
  lemma OppositeMoments(a: InertialData, b: InertialData)
    requires a.mass == b.mass
    requires Add(Normalize(a).centroid, Normalize(b).centroid) == Zero
    ensures TotalMoment([a, b]) == Zero
  {
    SumSmall(a, b, MomentOf, Zero, Add);
    var m := a.mass;
    var c := Normalize(a).centroid;
    var c' := Normalize(b).centroid;
    assert m * c.x + m * c'.x == m * (c.x + c'.x);
    assert m * c.y + m * c'.y == m * (c.y + c'.y);
    assert m * c.z + m * c'.z == m * (c.z + c'.z);
  }

  /** About the origin, both bodies add the same parallel-axis term. */
  lemma OppositeInertia(a: InertialData, b: InertialData)
    requires a.mass == b.mass
    requires Add(Normalize(a).centroid, Normalize(b).centroid) == Zero
    ensures TotalInertia([a, b], Zero)
         == MAdd(MAdd(Normalize(a).inertia, Normalize(b).inertia), MScale(2.0 * a.mass, Offset(Normalize(a).centroid)))
  {
    SumSmall(a, b, (i: InertialData) => Parallel(i, Zero), ZeroM, MAdd);
    var m := a.mass;
    var c := Normalize(a).centroid;
    assert Normalize(b).centroid == Scale(-1.0, c);
    ParallelAtOrigin(Normalize(a).centroid, m, Normalize(a).inertia);
    ParallelAtOrigin(Normalize(b).centroid, m, Normalize(b).inertia);
    assert Parallel(a, Zero) == Parallel(Normalize(a), Zero);
    assert Parallel(b, Zero) == Parallel(Normalize(b), Zero);
    OffsetOpposite(c);
    ScaleDouble(m, Offset(c));
    assert MAdd(ZeroM, Parallel(a, Zero)) == Parallel(a, Zero);
  }

  /** Two bodies of mass 4 and unit inertia, at `(1, 1, 1)` and at
      `(-1, -1, -1)` once normalised (as `NormalizeIdentity` gives for the
      first under the identity transform, and `NormalizeTranslation` gives for the
      body at `(-2, -2, -2)` translated by `(1, 1, 1)`), combine into mass 8
      at the origin with inertia `[[18, -8, -8], [-8, 18, -8], [-8, -8, 18]]`. */
  lemma CombineDiagonal(a: InertialData, b: InertialData)
    requires a.mass == 4.0 && Normalize(a) == InertialData(V3(1.0, 1.0, 1.0), 4.0, Identity)
    requires b.mass == 4.0 && Normalize(b) == InertialData(V3(-1.0, -1.0, -1.0), 4.0, Identity)
    ensures TotalMass([a, b]) == 8.0
    ensures Combine([a, b]) == Ok(InertialData(Zero, 8.0, M3(V3(18.0, -8.0, -8.0), V3(-8.0, 18.0, -8.0), V3(-8.0, -8.0, 18.0))))
  {
    CombineOppositePair(a, b);
    DiagonalTerms(Normalize(a).centroid);
  }

  /** The entries of the parallel-axis term. */
  lemma OffsetEntries(c: V3)
    ensures Offset(c) == M3(V3(c.y * c.y + c.z * c.z, -(c.x * c.y), -(c.x * c.z)),
                            V3(-(c.y * c.x), c.x * c.x + c.z * c.z, -(c.y * c.z)),
                            V3(-(c.z * c.x), -(c.z * c.y), c.x * c.x + c.y * c.y))
  {
    var d := Dot(c, c);
    assert d == c.x * c.x + c.y * c.y + c.z * c.z;
    assert MScale(d, Identity) == M3(V3(d, 0.0, 0.0), V3(0.0, d, 0.0), V3(0.0, 0.0, d));
    assert Outer(c, c) == M3(V3(c.x * c.x, c.x * c.y, c.x * c.z), V3(c.y * c.x, c.y * c.y, c.y * c.z), V3(c.z * c.x, c.z * c.y, c.z * c.z));
  }

  /** Two unit inertias plus 8 times a matrix `o`, entry by entry. */
  lemma UnitPairTerms(o: M3)
    ensures MAdd(MAdd(Identity, Identity), MScale(2.0 * 4.0, o))
         == M3(V3(2.0 + 8.0 * o.r0.x, 8.0 * o.r0.y, 8.0 * o.r0.z),
               V3(8.0 * o.r1.x, 2.0 + 8.0 * o.r1.y, 8.0 * o.r1.z),
               V3(8.0 * o.r2.x, 8.0 * o.r2.y, 2.0 + 8.0 * o.r2.z))
  {
    assert MAdd(Identity, Identity) == M3(V3(2.0, 0.0, 0.0), V3(0.0, 2.0, 0.0), V3(0.0, 0.0, 2.0));
    assert MScale(2.0 * 4.0, o) == M3(V3(8.0 * o.r0.x, 8.0 * o.r0.y, 8.0 * o.r0.z),
                                      V3(8.0 * o.r1.x, 8.0 * o.r1.y, 8.0 * o.r1.z),
                                      V3(8.0 * o.r2.x, 8.0 * o.r2.y, 8.0 * o.r2.z));
  }

  lemma DiagonalTerms(c: V3)
    requires c == V3(1.0, 1.0, 1.0)
    ensures MAdd(MAdd(Identity, Identity), MScale(2.0 * 4.0, Offset(c)))
         == M3(V3(18.0, -8.0, -8.0), V3(-8.0, 18.0, -8.0), V3(-8.0, -8.0, 18.0))
  {
    DiagonalOffset(c);
    UnitPairTerms(Offset(c));
  }

  /** The parallel-axis term at `(1, 1, 1)`. */
  lemma DiagonalOffset(c: V3)
    requires c == V3(1.0, 1.0, 1.0)
    ensures Offset(c) == M3(V3(2.0, -1.0, -1.0), V3(-1.0, 2.0, -1.0), V3(-1.0, -1.0, 2.0))
  {
    OffsetEntries(V3(1.0, 1.0, 1.0));
  }

  /** Two bodies of mass 4 and unit inertia, at `(1, 0, 0)` and at
      `(-1, 0, 0)` once normalised (the body at `(-2, 0, 0)` translated by
      `(1, 0, 0)`), combine into mass 8 at the origin with inertia
      `diag(2, 10, 10)`. */
  lemma CombineOnAxis(a: InertialData, b: InertialData)
    requires a.mass == 4.0 && Normalize(a) == InertialData(V3(1.0, 0.0, 0.0), 4.0, Identity)
    requires b.mass == 4.0 && Normalize(b) == InertialData(V3(-1.0, 0.0, 0.0), 4.0, Identity)
    ensures TotalMass([a, b]) == 8.0
    ensures Combine([a, b]) == Ok(InertialData(Zero, 8.0, M3(V3(2.0, 0.0, 0.0), V3(0.0, 10.0, 0.0), V3(0.0, 0.0, 10.0))))
  {
    CombineOppositePair(a, b);
    OnAxisTerms(Normalize(a).centroid);
  }

  lemma OnAxisTerms(c: V3)
    requires c == V3(1.0, 0.0, 0.0)
    ensures MAdd(MAdd(Identity, Identity), MScale(2.0 * 4.0, Offset(c)))
         == M3(V3(2.0, 0.0, 0.0), V3(0.0, 10.0, 0.0), V3(0.0, 0.0, 10.0))
  {
    OnAxisOffset(c);
    UnitPairTerms(Offset(c));
  }

  /** The parallel-axis term at `(1, 0, 0)`. */
  lemma OnAxisOffset(c: V3)
    requires c == V3(1.0, 0.0, 0.0)
    ensures Offset(c) == M3(V3(0.0, 0.0, 0.0), V3(0.0, 1.0, 0.0), V3(0.0, 0.0, 1.0))
  {
    OffsetEntries(V3(1.0, 0.0, 0.0));
  }

  /** A half turn about the z axis, and the inertia `diag(1, 2, 3)`. */
  const HalfTurn: M3 := M3(V3(-1.0, 0.0, 0.0), V3(0.0, -1.0, 0.0), V3(0.0, 0.0, 1.0))
  const Diag123: M3 := M3(V3(1.0, 0.0, 0.0), V3(0.0, 2.0, 0.0), V3(0.0, 0.0, 3.0))

  /** Diagonal matrices multiply entry by entry. */
  lemma DiagonalProduct(a: real, b: real, c: real, p: real, q: real, r: real)
    ensures MatMul(M3(V3(a, 0.0, 0.0), V3(0.0, b, 0.0), V3(0.0, 0.0, c)), M3(V3(p, 0.0, 0.0), V3(0.0, q, 0.0), V3(0.0, 0.0, r)))
         == M3(V3(a * p, 0.0, 0.0), V3(0.0, b * q, 0.0), V3(0.0, 0.0, c * r))
  {
  }

  lemma HalfTurnTimesDiag()
    ensures MatMul(HalfTurn, Diag123) == M3(V3(-1.0, 0.0, 0.0), V3(0.0, -2.0, 0.0), V3(0.0, 0.0, 3.0))
  {
    DiagonalProduct(-1.0, -1.0, 1.0, 1.0, 2.0, 3.0);
  }

  lemma HalfTurnBack()
    ensures MatMul(M3(V3(-1.0, 0.0, 0.0), V3(0.0, -2.0, 0.0), V3(0.0, 0.0, 3.0)), Transpose(HalfTurn)) == Diag123
  {
    assert Transpose(HalfTurn) == HalfTurn;
    DiagonalProduct(-1.0, -2.0, 3.0, -1.0, -1.0, 1.0);
  }

  /** The half turn maps the centroid `(1, 2, 3)` to `(-1, -2, 3)` and keeps
      the diagonal inertia. */
  lemma NormalizeHalfTurn()
    ensures Normalize(TransformedInertialData(V3(1.0, 2.0, 3.0), 5.0, Diag123, M4(HalfTurn, Zero, Zero, 1.0)))
         == InertialData(V3(-1.0, -2.0, 3.0), 5.0, Diag123)
  {
    HalfTurnCentroid();
    HalfTurnInertia();
  }

  /** A diagonal rotation part scales each coordinate. */
  lemma DiagonalApply(a: real, b: real, c: real, v: V3, t: V3, p: V3, s: real)
    ensures Apply(M4(M3(V3(a, 0.0, 0.0), V3(0.0, b, 0.0), V3(0.0, 0.0, c)), t, p, s), v)
         == V3(a * v.x + t.x, b * v.y + t.y, c * v.z + t.z)
  {
  }

  lemma HalfTurnCentroid()
    ensures Apply(M4(HalfTurn, Zero, Zero, 1.0), V3(1.0, 2.0, 3.0)) == V3(-1.0, -2.0, 3.0)
  {
    DiagonalApply(-1.0, -1.0, 1.0, V3(1.0, 2.0, 3.0), Zero, Zero, 1.0);
  }

  lemma HalfTurnInertia()
    ensures MatMul(MatMul(HalfTurn, Diag123), Transpose(HalfTurn)) == Diag123
  {
    HalfTurnTimesDiag();
    HalfTurnBack();
  }

  // ---- the cases of `util/test_inertial.py` ----

  /** The translation `[[1, 0, 0, t.x], [0, 1, 0, t.y], [0, 0, 1, t.z], [0, 0, 0, 1]]`. */
  function Translation(t: V3): (r: M4)
    ensures r.R == Identity && r.t == t
  {
    M4(Identity, t, Zero, 1.0)
  }

  /** A body at `(1, 2, 3)` of mass 5 and inertia `diag(1, 2, 3)` under the
      transform `T`. */
  function Body123(T: M4): InertialData {
    TransformedInertialData(V3(1.0, 2.0, 3.0), 5.0, Diag123, T)
  }

  /** A single body under the identity transform combines into itself. */
  lemma CombineSingleCase()
    ensures TotalMass([Body123(Identity4)]) == 5.0
    ensures Combine([Body123(Identity4)]) == Ok(InertialData(V3(1.0, 2.0, 3.0), 5.0, Diag123))
  {
    CombineSingle(Body123(Identity4));
    NormalizeIdentity(V3(1.0, 2.0, 3.0), 5.0, Diag123);
  }

  /** A single body translated by `(1, 0, 0)` combines at `(2, 2, 3)` with
      its inertia unchanged. */
  lemma CombineTranslationCase()
    ensures TotalMass([Body123(Translation(V3(1.0, 0.0, 0.0)))]) == 5.0
    ensures Combine([Body123(Translation(V3(1.0, 0.0, 0.0)))]) == Ok(InertialData(V3(2.0, 2.0, 3.0), 5.0, Diag123))
  {
    CombineSingle(Body123(Translation(V3(1.0, 0.0, 0.0))));
    NormalizeTranslation(V3(1.0, 2.0, 3.0), 5.0, Diag123, V3(1.0, 0.0, 0.0), Zero, 1.0);
  }

  /** A single body turned half way about the z axis combines at
      `(-1, -2, 3)` with its inertia unchanged. */
  lemma CombineRotationCase()
    ensures TotalMass([Body123(M4(HalfTurn, Zero, Zero, 1.0))]) == 5.0
    ensures Combine([Body123(M4(HalfTurn, Zero, Zero, 1.0))]) == Ok(InertialData(V3(-1.0, -2.0, 3.0), 5.0, Diag123))
  {
    CombineSingle(Body123(M4(HalfTurn, Zero, Zero, 1.0)));
    NormalizeHalfTurn();
  }

  /** A unit-inertia body of mass 4 at `c` under the transform `T`. */
  function UnitBody(c: V3, T: M4): InertialData {
    TransformedInertialData(c, 4.0, Identity, T)
  }

  /** The bodies at `(1, 0, 0)` and, translated by `(1, 0, 0)`, at
      `(-2, 0, 0)` combine into mass 8 at the origin with inertia
      `diag(2, 10, 10)`. */
  lemma CombineOnAxisCase()
    ensures TotalMass([UnitBody(V3(1.0, 0.0, 0.0), Identity4), UnitBody(V3(-2.0, 0.0, 0.0), Translation(V3(1.0, 0.0, 0.0)))]) == 8.0
    ensures Combine([UnitBody(V3(1.0, 0.0, 0.0), Identity4), UnitBody(V3(-2.0, 0.0, 0.0), Translation(V3(1.0, 0.0, 0.0)))])
         == Ok(InertialData(Zero, 8.0, M3(V3(2.0, 0.0, 0.0), V3(0.0, 10.0, 0.0), V3(0.0, 0.0, 10.0))))
  {
    NormalizeIdentity(V3(1.0, 0.0, 0.0), 4.0, Identity);
    NormalizeTranslation(V3(-2.0, 0.0, 0.0), 4.0, Identity, V3(1.0, 0.0, 0.0), Zero, 1.0);
    CombineOnAxis(UnitBody(V3(1.0, 0.0, 0.0), Identity4), UnitBody(V3(-2.0, 0.0, 0.0), Translation(V3(1.0, 0.0, 0.0))));
  }

  /** The bodies at `(1, 1, 1)` and, translated by `(1, 1, 1)`, at
      `(-2, -2, -2)` combine into mass 8 at the origin with inertia
      `[[18, -8, -8], [-8, 18, -8], [-8, -8, 18]]`. */
  lemma CombineDiagonalCase()
    ensures TotalMass([UnitBody(V3(1.0, 1.0, 1.0), Identity4), UnitBody(V3(-2.0, -2.0, -2.0), Translation(V3(1.0, 1.0, 1.0)))]) == 8.0
    ensures Combine([UnitBody(V3(1.0, 1.0, 1.0), Identity4), UnitBody(V3(-2.0, -2.0, -2.0), Translation(V3(1.0, 1.0, 1.0)))])
         == Ok(InertialData(Zero, 8.0, M3(V3(18.0, -8.0, -8.0), V3(-8.0, 18.0, -8.0), V3(-8.0, -8.0, 18.0))))
  {
    NormalizeIdentity(V3(1.0, 1.0, 1.0), 4.0, Identity);
    NormalizeTranslation(V3(-2.0, -2.0, -2.0), 4.0, Identity, V3(1.0, 1.0, 1.0), Zero, 1.0);
    CombineDiagonal(UnitBody(V3(1.0, 1.0, 1.0), Identity4), UnitBody(V3(-2.0, -2.0, -2.0), Translation(V3(1.0, 1.0, 1.0))));
  }

  /** Sums of two lists agree when their terms agree one by one. */
  lemma {:induction false} SumPointwise<T, U>(a: seq<T>, b: seq<T>, f: T -> U, zero: U, add: (U, U) -> U)
    requires |a| == |b| && forall k :: 0 <= k < |a| ==> f(a[k]) == f(b[k])
    ensures Sum(a, f, zero, add) == Sum(b, f, zero, add)
  {
    if |a| > 0 {
      SumPointwise(a[..|a| - 1], b[..|b| - 1], f, zero, add);
    }
  }

  /** The list with every entry normalised. */
  function Normalized(s: seq<InertialData>): (r: seq<InertialData>)
    ensures |r| == |s| && forall k :: 0 <= k < |s| ==> r[k] == Normalize(s[k])
  {
    seq(|s|, k requires 0 <= k < |s| => Normalize(s[k]))
  }

  /** Normalising every entry first changes nothing: the combination only
      ever reads the normalised values. */
  lemma CombineNormalized(s: seq<InertialData>)
    requires |s| == 0 || TotalMass(s) != 0.0
    ensures TotalMass(Normalized(s)) == TotalMass(s)
    ensures Combine(Normalized(s)) == Combine(s)
  {
    var n := Normalized(s);
    SumPointwise(n, s, MassOf, 0.0, RealAdd);
    SumPointwise(n, s, MomentOf, Zero, Add);
    if |s| > 0 {
      var c := Scale(1.0 / TotalMass(s), TotalMoment(s));
      SumPointwise(n, s, (i: InertialData) => Parallel(i, c), ZeroM, MAdd);
    }
  }

  /** `combineInertials` as written: normalise every entry, sum the masses and
      the moments, then add up the parallel-axis inertias in a loop. */
  method CombineInertials(inertials: seq<InertialData>) returns (r: Result<InertialData>)
    requires |inertials| == 0 || TotalMass(inertials) != 0.0
    ensures r == Combine(inertials)
  {
    var normalized := seq(|inertials|, k requires 0 <= k < |inertials| => Normalize(inertials[k]));
    if |normalized| == 0 {
      return Err("Empty inertials list provided");
    }
    var totalMass := TotalMass(inertials);
    var combinedCentroid := Scale(1.0 / totalMass, TotalMoment(inertials));
    var combinedInertia := ZeroM;
    for k := 0 to |normalized|
      invariant combinedInertia == TotalInertia(inertials[..k], combinedCentroid)
    {
      var inertial := normalized[k];
      var d := Sub(combinedCentroid, inertial.centroid);
      var dMatrix := Outer(d, d);
      var inertiaParallel := MAdd(inertial.inertia, MScale(inertial.mass, MSub(MScale(Dot(d, d), Identity), dMatrix)));
      assert inertials[..k + 1][..k] == inertials[..k];
      assert inertiaParallel == Parallel(inertials[k], combinedCentroid);
      combinedInertia := MAdd(combinedInertia, inertiaParallel);
    }
    assert inertials[..|inertials|] == inertials;
    r := Ok(InertialData(combinedCentroid, totalMass, combinedInertia));
  }
}
