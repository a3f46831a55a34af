/** The identifiers of an Onshape document (`onshape_mjcf/onshape_data/__init__.py`):
    instance ids, qualified references to assemblies and part studios, part
    references, feature ids, and instance paths (occurrences). The dataclass
    orderings Python derives for them (`order=True`) are written out, since
    the modelled code sorts paths and part references. */
module Ids {
  import opened Wrappers
  import opened Strings

  datatype InstanceId = InstanceId(id: string)

  datatype QualifiedRef = QualifiedRef(documentId: string, elementId: string, microversionId: string, configuration: string)

  datatype PartRef = PartRef(ref: QualifiedRef, partId: string)

  datatype FeatureId = FeatureId(id: string)

  /** An occurrence: a chain of instances starting in the assembly `root`. */
  datatype InstancePath = InstancePath(root: QualifiedRef, elements: seq<InstanceId>)

  /** `len(p)`. */
  function Len(p: InstancePath): nat {
    |p.elements|
  }

  /** `p.instance`, the last element; an empty path has none (`IndexError`). */
  function Instance(p: InstancePath): (r: Result<InstanceId>)
    ensures r.Ok? <==> Len(p) > 0
    ensures r.Ok? ==> r.value == p.elements[Len(p) - 1]
  {
    if |p.elements| == 0 then Err("tuple index out of range") else Ok(p.elements[|p.elements| - 1])
  }

  /** Python's `s[:n]`: a negative `n` counts from the end, and the bound is
      clipped to the sequence. */
  function Take<T>(s: seq<T>, n: int): (r: seq<T>)
    ensures |r| <= |s| && r == s[..|r|]
    ensures 0 <= n <= |s| ==> |r| == n
    ensures n > |s| ==> r == s
    ensures n < 0 ==> |r| == if |s| + n < 0 then 0 else |s| + n
  {
    if n >= 0 then (if n <= |s| then s[..n] else s)
    else if |s| + n < 0 then [] else s[..|s| + n]
  }

  /** `p[idx]`: the path of the first `idx + 1` elements. */
  function At(p: InstancePath, idx: int): (q: InstancePath)
    ensures q.root == p.root
    ensures 0 <= idx < Len(p) ==> q.elements == p.elements[..idx + 1]
  {
    InstancePath(p.root, Take(p.elements, idx + 1))
  }

  /** `q` is `p` or an ancestor of `p`. */
  predicate IsPrefix(q: InstancePath, p: InstancePath) {
    q.root == p.root && q.elements <= p.elements
  }

  /** For every valid index, `p[i]` is the ancestor of `p` of length `i + 1`
      whose instance is the `i`-th element of `p`. */
  lemma AtProperties(p: InstancePath, i: int)
    requires 0 <= i < Len(p)
    ensures IsPrefix(At(p, i), p) && Len(At(p, i)) == i + 1
    ensures Instance(At(p, i)) == Ok(p.elements[i])
  {
  }

  /** Indexing beyond the end gives the whole path; the last index gives the
      path itself. */
  lemma AtLast(p: InstancePath, i: int)
    requires i >= Len(p) - 1
    ensures At(p, i) == p
  {
  }

  // The orderings of `@dataclass(order=True)`: fields compared in order,
  // strings and tuples lexicographically.

  predicate RefLess(a: QualifiedRef, b: QualifiedRef) {
    if a.documentId != b.documentId then Less(a.documentId, b.documentId)
    else if a.elementId != b.elementId then Less(a.elementId, b.elementId)
    else if a.microversionId != b.microversionId then Less(a.microversionId, b.microversionId)
    else Less(a.configuration, b.configuration)
  }

  predicate PartRefLess(a: PartRef, b: PartRef) {
    if a.ref != b.ref then RefLess(a.ref, b.ref) else Less(a.partId, b.partId)
  }

  predicate ElementsLess(a: seq<InstanceId>, b: seq<InstanceId>) {
    if |a| == 0 then |b| > 0
    else if |b| == 0 then false
    else if a[0] != b[0] then Less(a[0].id, b[0].id)
    else ElementsLess(a[1..], b[1..])
  }

  predicate PathLess(a: InstancePath, b: InstancePath) {
    if a.root != b.root then RefLess(a.root, b.root) else ElementsLess(a.elements, b.elements)
  }

  /** `<` on strings is a strict total order. */
  lemma StringOrder(a: string, b: string, c: string)
    ensures !Less(a, a)
    ensures a == b || Less(a, b) || Less(b, a)
    ensures Less(a, b) ==> !Less(b, a)
    ensures Less(a, b) && Less(b, c) ==> Less(a, c)
  {
    LessIrreflexive(a);
    LessTotal(a, b);
    if Less(a, b) {
      LessAsymmetric(a, b);
      if Less(b, c) {
        LessTransitive(a, b, c);
      }
    }
  }

  lemma RefOrder(a: QualifiedRef, b: QualifiedRef, c: QualifiedRef)
    ensures !RefLess(a, a)
    ensures a == b || RefLess(a, b) || RefLess(b, a)
    ensures RefLess(a, b) ==> !RefLess(b, a)
    ensures RefLess(a, b) && RefLess(b, c) ==> RefLess(a, c)
  {
    StringOrder(a.documentId, b.documentId, c.documentId);
    StringOrder(a.elementId, b.elementId, c.elementId);
    StringOrder(a.microversionId, b.microversionId, c.microversionId);
    StringOrder(a.configuration, b.configuration, c.configuration);
    StringOrder(a.documentId, c.documentId, b.documentId);
    StringOrder(a.elementId, c.elementId, b.elementId);
    StringOrder(a.microversionId, c.microversionId, b.microversionId);
    StringOrder(a.configuration, c.configuration, b.configuration);
  }

  /** Part references are strictly and totally ordered. */
  lemma PartRefOrder(a: PartRef, b: PartRef, c: PartRef)
    ensures !PartRefLess(a, a)
    ensures a == b || PartRefLess(a, b) || PartRefLess(b, a)
    ensures PartRefLess(a, b) ==> !PartRefLess(b, a)
    ensures PartRefLess(a, b) && PartRefLess(b, c) ==> PartRefLess(a, c)
  {
    RefOrder(a.ref, b.ref, c.ref);
    RefOrder(a.ref, c.ref, b.ref);
    StringOrder(a.partId, b.partId, c.partId);
  }

  lemma {:induction false} ElementsOrder(a: seq<InstanceId>, b: seq<InstanceId>, c: seq<InstanceId>)
    ensures !ElementsLess(a, a)
    ensures a == b || ElementsLess(a, b) || ElementsLess(b, a)
    ensures ElementsLess(a, b) ==> !ElementsLess(b, a)
    ensures ElementsLess(a, b) && ElementsLess(b, c) ==> ElementsLess(a, c)
  {
    if |a| > 0 && |b| > 0 && |c| > 0 {
      ElementsOrder(a[1..], b[1..], c[1..]);
      StringOrder(a[0].id, b[0].id, c[0].id);
      if a[1..] == b[1..] && a[0] == b[0] {
        assert a == [a[0]] + a[1..] && b == [b[0]] + b[1..];
      }
    } else if |a| > 0 && |b| > 0 {
      ElementsOrder(a[1..], b[1..], a[1..]);
      StringOrder(a[0].id, b[0].id, a[0].id);
      if a[1..] == b[1..] && a[0] == b[0] {
        assert a == [a[0]] + a[1..] && b == [b[0]] + b[1..];
      }
    } else if |a| > 0 {
      ElementsOrder(a[1..], a[1..], a[1..]);
    }
  }

  /** Instance paths are strictly and totally ordered. */
  lemma PathOrder(a: InstancePath, b: InstancePath, c: InstancePath)
    ensures !PathLess(a, a)
    ensures a == b || PathLess(a, b) || PathLess(b, a)
    ensures PathLess(a, b) ==> !PathLess(b, a)
    ensures PathLess(a, b) && PathLess(b, c) ==> PathLess(a, c)
  {
    RefOrder(a.root, b.root, c.root);
    RefOrder(a.root, c.root, b.root);
    ElementsOrder(a.elements, b.elements, c.elements);
  }
}
