/** The decoded Onshape assembly (`onshape_mjcf/onshape_data/__init__.py`):
    assemblies with their instances and mate features, parts, occurrences,
    and the lookups `OnshapeData.__getitem__` and
    `InstancePathLookup.canonicalizePath` that resolve paths against them.
    The JSON fetched from the Onshape API is taken as already decoded; the
    fetch itself is not part of this model. */
module OnshapeData {
  import opened Wrappers
  import opened Dicts
  import opened Ids
  import opened Linalg

  /** A mated entity or mate connector: an occurrence and the transform from
      the part's frame to the mate's frame. */
  datatype MateDefinition = MateDefinition(occurrence: InstancePath, partToMateT: M4)

  /** The three kinds of assembly feature. */
  datatype Feature =
    | MateFeature(id: FeatureId, suppressed: bool, name: string, mateType: string, matedEntities: seq<MateDefinition>)
    | MateGroupFeature(id: FeatureId, suppressed: bool, name: string, occurrences: seq<InstancePath>)
    | MateConnectorFeature(id: FeatureId, suppressed: bool, name: string, definition: MateDefinition)

  /** An instance inside an assembly: of a sub-assembly or of a part. */
  datatype Instance =
    | AssemblyInstance(id: InstanceId, name: string, suppressed: bool, ref: QualifiedRef)
    | PartInstance(id: InstanceId, name: string, suppressed: bool, partRef: PartRef, isStandardContent: bool, documentVersion: Option<string>)

  datatype Assembly = Assembly(
    ref: QualifiedRef,
    instances: Dict<InstanceId, Instance>,
    instanceByName: Dict<string, InstanceId>,
    features: Dict<FeatureId, Feature>)

  datatype Part = Part(isStandardContent: bool, bodyType: string, ref: PartRef, documentVersion: Option<string>)

  datatype Occurrence = Occurrence(path: InstancePath, transform: M4, fixed: bool, hidden: bool)

  /** What an instance is an instance of. */
  datatype Archetype = AssemblyArchetype(assembly: Assembly) | PartArchetype(part: Part)

  /** `InstancePathLookup`. */
  datatype PathLookup = PathLookup(isAbsolute: bool, occurrence: Option<Occurrence>, instance: Instance, archetype: Archetype)

  /** `InstanceIdLookup`. */
  datatype IdLookup = IdLookup(instance: Instance, archetype: Archetype)

  /** The decoded document: the root assembly's reference, every assembly by
      reference, every part by reference, and the occurrences of the root
      assembly in the order the API lists them. */
  datatype Document = Document(
    rootAssemblyId: QualifiedRef,
    assemblies: Dict<QualifiedRef, Assembly>,
    parts: Dict<PartRef, Part>,
    occurrences: Dict<InstancePath, Occurrence>)

  /** The dictionaries of a decoded document list each key once, as Python's
      dictionaries do. */
  ghost predicate WellFormed(doc: Document) {
    && doc.assemblies.Valid()
    && doc.occurrences.Valid()
    && forall ref :: ref in doc.assemblies.m ==> doc.assemblies.m[ref].features.Valid()
  }

  /** The instances of a list of assemblies by id; an id met again in a later
      assembly takes the later instance. */
  function InstancesOf(assemblies: seq<Assembly>): map<InstanceId, Instance>
  {
    if |assemblies| == 0 then map[]
    else InstancesOf(assemblies[..|assemblies| - 1]) + assemblies[|assemblies| - 1].instances.m
  }

  /** The ids are those of the assemblies' instances. */
  lemma {:induction false} InstancesOfMembers(assemblies: seq<Assembly>, id: InstanceId)
    ensures id in InstancesOf(assemblies) <==> exists a :: a in assemblies && id in a.instances.m
  {
    if |assemblies| > 0 {
      var init := assemblies[..|assemblies| - 1];
      InstancesOfMembers(init, id);
      assert forall a :: a in assemblies <==> a in init || a == assemblies[|assemblies| - 1];
    }
  }

  /** An id takes the instance of the last assembly that has it. */
  lemma {:induction false} InstancesOfLast(assemblies: seq<Assembly>, id: InstanceId, j: nat)
    requires j < |assemblies| && id in assemblies[j].instances.m
    requires forall l :: j < l < |assemblies| ==> id !in assemblies[l].instances.m
    ensures id in InstancesOf(assemblies) && InstancesOf(assemblies)[id] == assemblies[j].instances.m[id]
  {
    if j < |assemblies| - 1 {
      var init := assemblies[..|assemblies| - 1];
      InstancesOfLast(init, id, j);
    }
  }

  /** `OnshapeData.instances`: every instance of every assembly, by id. */
  function Instances(doc: Document): map<InstanceId, Instance>
    requires doc.assemblies.Valid()
  {
    InstancesOf(doc.assemblies.Values())
  }

  /** `getByQRef`: the assembly or part an instance refers to. */
  function ArchetypeOf(doc: Document, inst: Instance): (r: Result<Archetype>)
    ensures r.Ok? <==> (if inst.AssemblyInstance? then inst.ref in doc.assemblies.m else inst.partRef in doc.parts.m)
    ensures r.Ok? && inst.AssemblyInstance? ==> r.value == AssemblyArchetype(doc.assemblies.m[inst.ref])
    ensures r.Ok? && inst.PartInstance? ==> r.value == PartArchetype(doc.parts.m[inst.partRef])
  {
    match inst
    case AssemblyInstance(_, _, _, ref) =>
      if ref in doc.assemblies.m then Ok(AssemblyArchetype(doc.assemblies.m[ref])) else Err("KeyError: assembly")
    case PartInstance(_, _, _, partRef, _, _) =>
      if partRef in doc.parts.m then Ok(PartArchetype(doc.parts.m[partRef])) else Err("KeyError: part")
  }

  /** `data[instanceId]`. */
  function LookupId(doc: Document, id: InstanceId): (r: Result<IdLookup>)
    requires doc.assemblies.Valid()
    ensures r.Ok? ==> id in Instances(doc) && r.value.instance == Instances(doc)[id]
    ensures r.Ok? <==> id in Instances(doc) && ArchetypeOf(doc, Instances(doc)[id]).Ok?
  {
    var instances := Instances(doc);
    if id !in instances then Err("KeyError: instance")
    else
      var archetype :- ArchetypeOf(doc, instances[id]);
      Ok(IdLookup(instances[id], archetype))
  }

  /** `data[path]`: a path from the root assembly also has an occurrence, which
      must exist; the last element names the instance. */
  function LookupPath(doc: Document, path: InstancePath): (r: Result<PathLookup>)
    requires doc.assemblies.Valid()
    ensures r.Ok? ==> r.value.isAbsolute == (path.root == doc.rootAssemblyId)
    ensures r.Ok? && r.value.isAbsolute ==> path in doc.occurrences.m && r.value.occurrence == Some(doc.occurrences.m[path])
    ensures r.Ok? && !r.value.isAbsolute ==> r.value.occurrence == None
    ensures r.Ok? ==> Len(path) > 0 && Ids.Instance(path).value in Instances(doc) && r.value.instance == Instances(doc)[Ids.Instance(path).value]
    ensures r.Ok? ==> ArchetypeOf(doc, r.value.instance) == Ok(r.value.archetype)
    ensures r.Ok? <==>
      && (path.root == doc.rootAssemblyId ==> path in doc.occurrences.m)
      && Len(path) > 0
      && Ids.Instance(path).value in Instances(doc)
      && ArchetypeOf(doc, Instances(doc)[Ids.Instance(path).value]).Ok?
  {
    var isAbsolute := doc.rootAssemblyId == path.root;
    if isAbsolute && path !in doc.occurrences.m then Err("KeyError: occurrence")
    else
      var occ := if isAbsolute then Some(doc.occurrences.m[path]) else None;
      var id :- Ids.Instance(path);
      var instances := Instances(doc);
      if id !in instances then Err("KeyError: instance")
      else
        var archetype :- ArchetypeOf(doc, instances[id]);
        Ok(PathLookup(isAbsolute, occ, instances[id], archetype))
  }

  /** `lookup.canonicalizePath(path)`: a path relative to the looked-up
      sub-assembly, made absolute by putting the occurrence's path in front.
      The path must start in the assembly the instance refers to (a part
      instance refers to no assembly), and the lookup must have an occurrence. */
  function CanonicalizePath(lookup: PathLookup, path: InstancePath): (r: Result<InstancePath>)
    ensures r.Ok? <==> lookup.instance.AssemblyInstance? && path.root == lookup.instance.ref && lookup.occurrence.Some?
    ensures r.Ok? ==> r.value.root == lookup.occurrence.value.path.root
    ensures r.Ok? ==> r.value.elements == lookup.occurrence.value.path.elements + path.elements
  {
    if !lookup.instance.AssemblyInstance? || path.root != lookup.instance.ref then Err("AssertionError: path root")
    else if lookup.occurrence.None? then Err("AttributeError: no occurrence")
    else
      var occPath := lookup.occurrence.value.path;
      Ok(InstancePath(occPath.root, occPath.elements + path.elements))
  }

  /** The occurrence is an ancestor of every path it canonicalizes, which
      keeps its length and adds the path's. */
  lemma CanonicalizePrefix(lookup: PathLookup, path: InstancePath)
    requires CanonicalizePath(lookup, path).Ok?
    ensures IsPrefix(lookup.occurrence.value.path, CanonicalizePath(lookup, path).value)
    ensures Len(CanonicalizePath(lookup, path).value) == Len(lookup.occurrence.value.path) + Len(path)
  {
  }

  /** The JSON of a coordinate system: three axes and an origin. */
  datatype CoordinateSystem = CoordinateSystem(xAxis: V3, yAxis: V3, zAxis: V3, origin: V3)

  /** The transform a coordinate system denotes: the axes are the columns of
      the rotation block, the origin is the translation, and the bottom row is
      `0 0 0 1`. */
  function CSMatrix(cs: CoordinateSystem): M4 {
    M4(FromCols(cs.xAxis, cs.yAxis, cs.zAxis), cs.origin, Zero, 1.0)
  }

  /** Entry `(i, j)` of a 4x4 matrix. */
  function Entry(T: M4, i: nat, j: nat): real
    requires i < 4 && j < 4
  {
    if i < 3 && j < 3 then
      var row := if i == 0 then T.R.r0 else if i == 1 then T.R.r1 else T.R.r2;
      if j == 0 then row.x else if j == 1 then row.y else row.z
    else if i < 3 then (if i == 0 then T.t.x else if i == 1 then T.t.y else T.t.z)
    else if j < 3 then (if j == 0 then T.p.x else if j == 1 then T.p.y else T.p.z)
    else T.s
  }

  /** The point with coordinates `v` in the coordinate system lands at
      `v.x xAxis + v.y yAxis + v.z zAxis + origin`; its origin lands at
      `origin`. */
  lemma CSMatrixMapsFrame(cs: CoordinateSystem, v: V3)
    ensures Apply(CSMatrix(cs), v) == Add(Add(Add(Scale(v.x, cs.xAxis), Scale(v.y, cs.yAxis)), Scale(v.z, cs.zAxis)), cs.origin)
    ensures Apply(CSMatrix(cs), Zero) == cs.origin
  {
  }

  /** Write the axis `a` into column `j` of the top three rows. */
  method SetColumn(m: array2<real>, j: nat, a: V3)
    requires m.Length0 == 4 && m.Length1 == 4 && j < 4
    modifies m
    ensures m[0, j] == a.x && m[1, j] == a.y && m[2, j] == a.z
    ensures forall i, k :: 0 <= i < 4 && 0 <= k < 4 && (k != j || i == 3) ==> m[i, k] == old(m[i, k])
  {
    m[0, j] := a.x;
    m[1, j] := a.y;
    m[2, j] := a.z;
  }

  /** `readCSMatrix(data)`: start from the identity, write the axes into the
      columns of the upper-left block and the origin into the last column. */
  method ReadCSMatrix(cs: CoordinateSystem) returns (m: array2<real>)
    ensures fresh(m) && m.Length0 == 4 && m.Length1 == 4
    ensures forall i, j :: 0 <= i < 4 && 0 <= j < 4 ==> m[i, j] == Entry(CSMatrix(cs), i, j)
  {
    m := new real[4, 4]((i, j) => if i == j then 1.0 else 0.0);
    SetColumn(m, 0, cs.xAxis);
    SetColumn(m, 1, cs.yAxis);
    SetColumn(m, 2, cs.zAxis);
    SetColumn(m, 3, cs.origin);
  }
}
