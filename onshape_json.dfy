/** Building the decoded document (`onshape_mjcf/onshape_data/__init__.py`):
    `Assembly.from_json`, which decodes the instances and features of an
    assembly and indexes the instances by name, and
    `OnshapeData.occurranceNamePaths`, which walks the instances from the
    root assembly down and indexes every occurrence by its path of instance
    names. The JSON text is taken as already parsed into records carrying
    every key the decoders read. */
module OnshapeJson {
  import opened Wrappers
  import opened Dicts
  import opened Ids
  import opened OnshapeData

  // ---- Assembly.from_json ----

  /** The JSON of an instance: its type, and what `AssemblyInstance.from_json`
      and `PartInstance.from_json` read (`ref` stands for the four fields of
      the qualified reference, `partId` is read for parts only). */
  datatype InstanceJson = InstanceJson(
    kind: string, id: string, name: string, suppressed: bool,
    ref: QualifiedRef, partId: string, isStandardContent: bool, documentVersion: Option<string>)

  /** The JSON of a mated entity: the occurrence's instance ids and the
      coordinate system of the mate on the part. */
  datatype EntityJson = EntityJson(matedOccurrence: seq<string>, matedCS: CoordinateSystem)

  /** The `featureData` of a feature: a mate reads the name, mate type and
      mated entities; a mate group the name and occurrences; a mate
      connector the name, occurrence and coordinate system. */
  datatype FeatureDataJson = FeatureDataJson(
    name: string, mateType: string, matedEntities: seq<EntityJson>,
    occurrences: seq<seq<string>>, occurrence: seq<string>, mateConnectorCS: CoordinateSystem)

  datatype FeatureJson = FeatureJson(featureType: string, id: string, suppressed: bool, featureData: FeatureDataJson)

  datatype AssemblyJson = AssemblyJson(ref: QualifiedRef, instances: seq<InstanceJson>, features: seq<FeatureJson>)

  /** `InstancePath(ref, elements)`: the ids, given as text, wrapped. */
  function PathOf(ref: QualifiedRef, elements: seq<string>): (p: InstancePath)
    ensures p.root == ref && |p.elements| == |elements|
    ensures forall k :: 0 <= k < |elements| ==> p.elements[k] == InstanceId(elements[k])
  {
    InstancePath(ref, seq(|elements|, k requires 0 <= k < |elements| => InstanceId(elements[k])))
  }

  /** The loop body over `data["instances"]`: an `Assembly` or a `Part`
      instance by its type, any other type an error. */
  function DecodeInstance(j: InstanceJson): (r: Result<Instance>)
    ensures r.Ok? <==> j.kind == "Assembly" || j.kind == "Part"
    ensures r.Ok? ==> r.value.id == InstanceId(j.id) && r.value.name == j.name && r.value.suppressed == j.suppressed
    ensures r.Ok? ==> (r.value.AssemblyInstance? <==> j.kind == "Assembly")
  {
    if j.kind == "Assembly" then
      Ok(AssemblyInstance(InstanceId(j.id), j.name, j.suppressed, j.ref))
    else if j.kind == "Part" then
      Ok(PartInstance(InstanceId(j.id), j.name, j.suppressed, PartRef(j.ref, j.partId), j.isStandardContent, j.documentVersion))
    else
      Err("unknown instance type: " + j.kind)
  }

  /** Every occurrence a feature names is a path from the assembly `ref`. */
  predicate RootedAt(f: Feature, ref: QualifiedRef) {
    match f
    case MateFeature(_, _, _, _, entities) => forall k :: 0 <= k < |entities| ==> entities[k].occurrence.root == ref
    case MateGroupFeature(_, _, _, occurrences) => forall k :: 0 <= k < |occurrences| ==> occurrences[k].root == ref
    case MateConnectorFeature(_, _, _, definition) => definition.occurrence.root == ref
  }

  /** The loop body over `data["features"]`: a mate, mate group or mate
      connector by its feature type, any other type an error. Every
      occurrence the feature names is read as a path from the assembly
      being decoded, and every coordinate system as its matrix. */
  function DecodeFeature(ref: QualifiedRef, j: FeatureJson): (r: Result<Feature>)
    ensures r.Ok? <==> j.featureType == "mate" || j.featureType == "mateGroup" || j.featureType == "mateConnector"
    ensures r.Ok? ==> r.value.id == FeatureId(j.id) && r.value.suppressed == j.suppressed && r.value.name == j.featureData.name
    ensures r.Ok? ==> (r.value.MateFeature? <==> j.featureType == "mate") && (r.value.MateGroupFeature? <==> j.featureType == "mateGroup")
    ensures r.Ok? ==> RootedAt(r.value, ref)
  {
    var data := j.featureData;
    if j.featureType == "mate" then
      var entities := seq(|data.matedEntities|, k requires 0 <= k < |data.matedEntities| =>
        MateDefinition(PathOf(ref, data.matedEntities[k].matedOccurrence), CSMatrix(data.matedEntities[k].matedCS)));
      Ok(MateFeature(FeatureId(j.id), j.suppressed, data.name, data.mateType, entities))
    else if j.featureType == "mateGroup" then
      var occurrences := seq(|data.occurrences|, k requires 0 <= k < |data.occurrences| => PathOf(ref, data.occurrences[k]));
      Ok(MateGroupFeature(FeatureId(j.id), j.suppressed, data.name, occurrences))
    else if j.featureType == "mateConnector" then
      Ok(MateConnectorFeature(FeatureId(j.id), j.suppressed, data.name, MateDefinition(PathOf(ref, data.occurrence), CSMatrix(data.mateConnectorCS))))
    else
      Err("unknown feature type: " + j.featureType)
  }

  /** Decode each record and file it under its key, in order: a later value
      with the same key replaces the earlier one and keeps its place. */
  function Collect<J, K(==,!new), V>(js: seq<J>, decode: J -> Result<V>, key: V -> K): Result<Dict<K, V>>
  {
    if |js| == 0 then Ok(Empty())
    else
      var d :- Collect(js[..|js| - 1], decode, key);
      var v :- decode(js[|js| - 1]);
      Ok(d.Put(key(v), v))
  }

  /** Collecting fails exactly when some record does not decode. */
  lemma {:induction false} CollectOk<J, K(!new), V>(js: seq<J>, decode: J -> Result<V>, key: V -> K)
    ensures Collect(js, decode, key).Ok? <==> forall k :: 0 <= k < |js| ==> decode(js[k]).Ok?
  {
    if |js| > 0 {
      var init := js[..|js| - 1];
      CollectOk(init, decode, key);
      assert forall k :: 0 <= k < |init| ==> init[k] == js[k];
    }
  }

  /** The key of record `k` once decoded. */
  function KeyAt<J, K, V>(js: seq<J>, decode: J -> Result<V>, key: V -> K, k: nat): K
    requires k < |js| && decode(js[k]).Ok?
  {
    key(decode(js[k]).value)
  }

  /** The collected dictionary lists each key once. */
  lemma {:induction false} CollectValid<J, K(!new), V>(js: seq<J>, decode: J -> Result<V>, key: V -> K)
    requires forall k :: 0 <= k < |js| ==> decode(js[k]).Ok?
    ensures Collect(js, decode, key).Ok? && Collect(js, decode, key).value.Valid()
  {
    if |js| > 0 {
      var init := js[..|js| - 1];
      assert forall k :: 0 <= k < |init| ==> init[k] == js[k];
      CollectValid(init, decode, key);
    }
  }

  /** Its keys are those of the records. */
  lemma {:induction false} CollectKeys<J, K(!new), V>(js: seq<J>, decode: J -> Result<V>, key: V -> K, x: K)
    requires forall k :: 0 <= k < |js| ==> decode(js[k]).Ok?
    ensures Collect(js, decode, key).Ok?
    ensures x in Collect(js, decode, key).value.m <==> exists k :: 0 <= k < |js| && KeyAt(js, decode, key, k) == x
  {
    CollectOk(js, decode, key);
    if |js| > 0 {
      var init := js[..|js| - 1];
      assert forall k :: 0 <= k < |init| ==> init[k] == js[k];
      assert forall k :: 0 <= k < |init| ==> KeyAt(init, decode, key, k) == KeyAt(js, decode, key, k);
      CollectKeys(init, decode, key, x);
      if KeyAt(js, decode, key, |js| - 1) != x {
        if exists k :: 0 <= k < |js| && KeyAt(js, decode, key, k) == x {
          var k :| 0 <= k < |js| && KeyAt(js, decode, key, k) == x;
          assert KeyAt(init, decode, key, k) == x;
        }
      }
    }
  }

  /** Each key holds the value of the last record with that key. */
  lemma {:induction false} CollectLast<J, K(!new), V>(js: seq<J>, decode: J -> Result<V>, key: V -> K, k: nat)
    requires forall k :: 0 <= k < |js| ==> decode(js[k]).Ok?
    requires k < |js| && forall l :: k < l < |js| ==> KeyAt(js, decode, key, l) != KeyAt(js, decode, key, k)
    ensures Collect(js, decode, key).Ok?
    ensures KeyAt(js, decode, key, k) in Collect(js, decode, key).value.m
    ensures Collect(js, decode, key).value.m[KeyAt(js, decode, key, k)] == decode(js[k]).value
  {
    CollectOk(js, decode, key);
    if k < |js| - 1 {
      var init := js[..|js| - 1];
      assert forall k :: 0 <= k < |init| ==> init[k] == js[k];
      assert forall k :: 0 <= k < |init| ==> KeyAt(init, decode, key, k) == KeyAt(js, decode, key, k);
      CollectLast(init, decode, key, k);
      CollectOk(init, decode, key);
      var last := decode(js[|js| - 1]).value;
      assert Collect(js, decode, key) == Ok(Collect(init, decode, key).value.Put(key(last), last));
      assert key(last) == KeyAt(js, decode, key, |js| - 1);
      assert key(last) != KeyAt(js, decode, key, k);
    }
  }

  function InstanceKey(i: Instance): InstanceId { i.id }

  function FeatureKey(f: Feature): FeatureId { f.id }

  /** No two instances of the dictionary share a name. */
  ghost predicate NamesUnique(instances: Dict<InstanceId, Instance>) {
    forall a, b :: a in instances.m && b in instances.m && a != b ==> instances.m[a].name != instances.m[b].name
  }

  /** `byName` maps every instance's name to its id, and nothing else. */
  ghost predicate ByName(instances: Dict<InstanceId, Instance>, byName: Dict<string, InstanceId>) {
    && (forall n :: n in byName.m ==> byName.m[n] in instances.m && instances.m[byName.m[n]].name == n)
    && (forall id :: id in instances.m ==> instances.m[id].name in byName.m && byName.m[instances.m[id].name] == id)
  }

  /** The instances are keyed by their own ids. */
  ghost predicate SelfKeyed(instances: Dict<InstanceId, Instance>) {
    instances.Valid() && forall id :: id in instances.m ==> instances.m[id].id == id
  }

  /** The names of the first `i` values are all different, and `byName`
      maps each of them to the id of its value. */
  ghost predicate NamedUpTo(vals: seq<Instance>, i: nat, byName: Dict<string, InstanceId>) {
    && i <= |vals| && byName.Valid()
    && (forall n :: n in byName.m <==> exists k :: 0 <= k < i && vals[k].name == n)
    && (forall k :: 0 <= k < i ==> vals[k].name in byName.m && byName.m[vals[k].name] == vals[k].id)
  }

  lemma NamedNext(vals: seq<Instance>, i: nat, byName: Dict<string, InstanceId>)
    requires NamedUpTo(vals, i, byName) && i < |vals| && vals[i].name !in byName.m
    ensures NamedUpTo(vals, i + 1, byName.Put(vals[i].name, vals[i].id))
  {
    var next := byName.Put(vals[i].name, vals[i].id);
    forall n
      ensures n in next.m <==> exists k :: 0 <= k < i + 1 && vals[k].name == n
    {
      if n == vals[i].name {
        assert vals[i].name == n;
      }
    }
  }

  /** The loop over `instances.values()` that fills `instanceByName`,
      asserting that no name is met twice. */
  method IndexByName(instances: Dict<InstanceId, Instance>) returns (r: Result<Dict<string, InstanceId>>)
    requires SelfKeyed(instances)
    ensures r.Ok? <==> NamesUnique(instances)
    ensures r.Ok? ==> r.value.Valid() && ByName(instances, r.value)
  {
    var vals := instances.Values();
    var byName: Dict<string, InstanceId> := Empty();
    for i := 0 to |vals|
      invariant NamedUpTo(vals, i, byName)
    {
      if vals[i].name in byName.m {
        ghost var k :| 0 <= k < i && vals[k].name == vals[i].name;
        assert vals[k].id != vals[i].id by {
          assert vals[k] == instances.m[instances.keys[k]] && vals[i] == instances.m[instances.keys[i]];
        }
        return Err("AssertionError: instance name");
      }
      NamedNext(vals, i, byName);
      byName := byName.Put(vals[i].name, vals[i].id);
    }
    ByNameAll(instances, vals, byName);
    return Ok(byName);
  }

  /** After the last value, the names are those of the dictionary, all
      different, and each names the id of its instance. */
  lemma ByNameAll(instances: Dict<InstanceId, Instance>, vals: seq<Instance>, byName: Dict<string, InstanceId>)
    requires SelfKeyed(instances) && vals == instances.Values() && NamedUpTo(vals, |vals|, byName)
    ensures NamesUnique(instances) && ByName(instances, byName)
  {
    forall id | id in instances.m
      ensures instances.m[id].name in byName.m && byName.m[instances.m[id].name] == id
    {
      var k :| 0 <= k < |instances.keys| && instances.keys[k] == id;
      assert vals[k] == instances.m[id];
    }
    forall n | n in byName.m
      ensures byName.m[n] in instances.m && instances.m[byName.m[n]].name == n
    {
      var k :| 0 <= k < |vals| && vals[k].name == n;
      assert vals[k] == instances.m[instances.keys[k]];
    }
  }

  /** Every decoded record has a known type so far, and `d` is what they
      collect into. */
  ghost predicate DecodedUpTo<J, K(!new), V>(js: seq<J>, decode: J -> Result<V>, key: V -> K, i: nat, d: Dict<K, V>) {
    && i <= |js|
    && (forall k :: 0 <= k < i ==> decode(js[k]).Ok?)
    && Collect(js[..i], decode, key) == Ok(d)
  }

  lemma DecodedNext<J, K(!new), V>(js: seq<J>, decode: J -> Result<V>, key: V -> K, i: nat, d: Dict<K, V>)
    requires DecodedUpTo(js, decode, key, i, d) && i < |js| && decode(js[i]).Ok?
    ensures DecodedUpTo(js, decode, key, i + 1, d.Put(key(decode(js[i]).value), decode(js[i]).value))
  {
    assert js[..i + 1][..i] == js[..i];
  }

  /** The loop over the records of one kind: decode each and file it under
      its key, failing on the first that does not decode. */
  method DecodeAll<J, K(==,!new), V>(js: seq<J>, decode: J -> Result<V>, key: V -> K) returns (r: Result<Dict<K, V>>)
    ensures r.Ok? <==> forall k :: 0 <= k < |js| ==> decode(js[k]).Ok?
    ensures r.Ok? ==> Collect(js, decode, key) == r
  {
    var d: Dict<K, V> := Empty();
    for i := 0 to |js|
      invariant DecodedUpTo(js, decode, key, i, d)
    {
      var v := decode(js[i]);
      if v.Err? {
        return Err(v.msg);
      }
      DecodedNext(js, decode, key, i, d);
      d := d.Put(key(v.value), v.value);
    }
    assert js[..|js|] == js;
    return Ok(d);
  }

  /** The instances of the JSON once decoded, which are keyed by their ids. */
  lemma InstancesSelfKeyed(js: seq<InstanceJson>)
    requires forall k :: 0 <= k < |js| ==> DecodeInstance(js[k]).Ok?
    ensures Collect(js, DecodeInstance, InstanceKey).Ok? && SelfKeyed(Collect(js, DecodeInstance, InstanceKey).value)
  {
    CollectValid(js, DecodeInstance, InstanceKey);
    var d := Collect(js, DecodeInstance, InstanceKey).value;
    forall id | id in d.m
      ensures d.m[id].id == id
    {
      CollectKeys(js, DecodeInstance, InstanceKey, id);
      var k :| 0 <= k < |js| && KeyAt(js, DecodeInstance, InstanceKey, k) == id;
      var last := LastWith(js, k, id);
      CollectLast(js, DecodeInstance, InstanceKey, last);
    }
  }

  /** The last record from `k` on whose key is `id`. */
  lemma {:induction false} LastWith(js: seq<InstanceJson>, k: nat, id: InstanceId) returns (l: nat)
    requires k < |js| && DecodeInstance(js[k]).Ok? && KeyAt(js, DecodeInstance, InstanceKey, k) == id
    requires forall k :: 0 <= k < |js| ==> DecodeInstance(js[k]).Ok?
    ensures k <= l < |js| && KeyAt(js, DecodeInstance, InstanceKey, l) == id
    ensures forall m :: l < m < |js| ==> KeyAt(js, DecodeInstance, InstanceKey, m) != id
    decreases |js| - k
  {
    if exists m :: k < m < |js| && KeyAt(js, DecodeInstance, InstanceKey, m) == id {
      var m :| k < m < |js| && KeyAt(js, DecodeInstance, InstanceKey, m) == id;
      l := LastWith(js, m, id);
    } else {
      l := k;
    }
  }

  /** The decoded instances have pairwise different names. */
  ghost predicate InstanceNamesUnique(data: AssemblyJson) {
    Collect(data.instances, DecodeInstance, InstanceKey).Ok? && NamesUnique(Collect(data.instances, DecodeInstance, InstanceKey).value)
  }

  /** The instances of the JSON, every type known. */
  ghost predicate InstanceTypesKnown(data: AssemblyJson) {
    forall k :: 0 <= k < |data.instances| ==> DecodeInstance(data.instances[k]).Ok?
  }

  /** The features of the JSON, every type known. */
  ghost predicate FeatureTypesKnown(data: AssemblyJson) {
    forall k :: 0 <= k < |data.features| ==> DecodeFeature(data.ref, data.features[k]).Ok?
  }

  /** `Assembly.from_json(data)`: the instances by id, the features by id,
      and the instances' ids by name. It fails exactly when an instance or a
      feature has an unknown type or two instances share a name; otherwise
      the instances and features are those the records decode to, and
      `instanceByName` inverts the instances' names. */
  method AssemblyFromJson(data: AssemblyJson) returns (r: Result<Assembly>)
    ensures r.Ok? <==>
      && InstanceTypesKnown(data)
      && FeatureTypesKnown(data)
      && InstanceNamesUnique(data)
    ensures r.Ok? ==> r.value.ref == data.ref
    ensures r.Ok? ==> Ok(r.value.instances) == Collect(data.instances, DecodeInstance, InstanceKey)
    ensures r.Ok? ==> Ok(r.value.features) == Collect(data.features, (j: FeatureJson) => DecodeFeature(data.ref, j), FeatureKey)
    ensures r.Ok? ==> SelfKeyed(r.value.instances) && r.value.instanceByName.Valid() && ByName(r.value.instances, r.value.instanceByName)
  {
    var instances :- DecodeAll(data.instances, DecodeInstance, InstanceKey);
    CollectOk(data.instances, DecodeInstance, InstanceKey);
    InstancesSelfKeyed(data.instances);
    var features :- DecodeAll(data.features, (j: FeatureJson) => DecodeFeature(data.ref, j), FeatureKey);
    var byName :- IndexByName(instances);
    return Ok(Assembly(data.ref, instances, byName, features));
  }

  // ---- occurranceNamePaths ----

  /** An entry of `occurranceNamePaths`: an occurrence's path of instance
      names and its path of instance ids from the root assembly. */
  datatype NamedPath = NamedPath(names: seq<string>, path: InstancePath)

  /** Every assembly lists each of its instances once. */
  ghost predicate InstancesListed(doc: Document) {
    forall ref :: ref in doc.assemblies.m ==> doc.assemblies.m[ref].instances.Valid()
  }

  /** The ids of an assembly's instances, in order. */
  function InstanceIds(a: Assembly): (ids: seq<InstanceId>)
    requires a.instances.Valid()
    ensures |ids| == |a.instances.keys|
  {
    var vals := a.instances.Values();
    seq(|vals|, k requires 0 <= k < |vals| => vals[k].id)
  }

  /** The nesting depth the walk allows: one level per assembly, which only
      a document whose assemblies contain themselves exceeds. */
  function Depth(doc: Document): nat {
    |doc.assemblies.keys|
  }

  /** The entries `traverse(inst, path, names)` files, in order: the
      occurrence itself, then, below an assembly, the entries of each of
      its instances. */
  function Walk(doc: Document, fuel: nat, inst: InstanceId, path: seq<InstanceId>, names: seq<string>): Result<seq<NamedPath>>
    requires doc.assemblies.Valid() && InstancesListed(doc)
    decreases fuel, 0
  {
    var lookup :- LookupId(doc, inst);
    var here := NamedPath(names + [lookup.instance.name], InstancePath(doc.rootAssemblyId, path + [inst]));
    if lookup.archetype.PartArchetype? then Ok([here])
    else if fuel == 0 then Err("RecursionError")
    else
      var below :- WalkAll(doc, fuel - 1, InstanceIds(lookup.archetype.assembly), path + [inst], names + [lookup.instance.name]);
      Ok([here] + below)
  }

  /** The entries of the instances `ids`, one after another. */
  function WalkAll(doc: Document, fuel: nat, ids: seq<InstanceId>, path: seq<InstanceId>, names: seq<string>): Result<seq<NamedPath>>
    requires doc.assemblies.Valid() && InstancesListed(doc)
    decreases fuel, 1, |ids|
  {
    if |ids| == 0 then Ok([])
    else
      var before :- WalkAll(doc, fuel, ids[..|ids| - 1], path, names);
      var last :- Walk(doc, fuel, ids[|ids| - 1], path, names);
      Ok(before + last)
  }

  /** Every entry of the walk from an occurrence whose name path is as long
      as its id path has a name path as long as its id path, and starts at
      the root assembly. */
  lemma {:induction false} WalkLengths(doc: Document, fuel: nat, inst: InstanceId, path: seq<InstanceId>, names: seq<string>)
    requires doc.assemblies.Valid() && InstancesListed(doc) && |names| == |path|
    requires Walk(doc, fuel, inst, path, names).Ok?
    ensures forall e :: e in Walk(doc, fuel, inst, path, names).value ==>
      |e.names| == |e.path.elements| && e.path.root == doc.rootAssemblyId
    decreases fuel, 0
  {
    var lookup := LookupId(doc, inst).value;
    if lookup.archetype.AssemblyArchetype? {
      WalkAllLengths(doc, fuel - 1, InstanceIds(lookup.archetype.assembly), path + [inst], names + [lookup.instance.name]);
    }
  }

  lemma {:induction false} WalkAllLengths(doc: Document, fuel: nat, ids: seq<InstanceId>, path: seq<InstanceId>, names: seq<string>)
    requires doc.assemblies.Valid() && InstancesListed(doc) && |names| == |path|
    requires WalkAll(doc, fuel, ids, path, names).Ok?
    ensures forall e :: e in WalkAll(doc, fuel, ids, path, names).value ==>
      |e.names| == |e.path.elements| && e.path.root == doc.rootAssemblyId
    decreases fuel, 1, |ids|
  {
    if |ids| > 0 {
      WalkAllLengths(doc, fuel, ids[..|ids| - 1], path, names);
      WalkLengths(doc, fuel, ids[|ids| - 1], path, names);
    }
  }

  /** The entries of the whole document: those of each instance of the root
      assembly. */
  function NamePathList(doc: Document): Result<seq<NamedPath>>
    requires doc.assemblies.Valid() && InstancesListed(doc)
  {
    if doc.rootAssemblyId !in doc.assemblies.m then Err("KeyError: root assembly")
    else WalkAll(doc, Depth(doc), doc.assemblies.m[doc.rootAssemblyId].instances.keys, [], [])
  }

  /** Every name path is as long as the id path it maps to, and every id path
      starts at the root assembly. */
  lemma NamePathLengths(doc: Document)
    requires doc.assemblies.Valid() && InstancesListed(doc) && NamePathList(doc).Ok?
    ensures forall e :: e in NamePathList(doc).value ==> |e.names| == |e.path.elements| && e.path.root == doc.rootAssemblyId
  {
    WalkAllLengths(doc, Depth(doc), doc.assemblies.m[doc.rootAssemblyId].instances.keys, [], []);
  }

  /** File the entries into `d` in order, failing on a name path already
      filed (`assert subNamePath not in result`). */
  function File(d: Dict<seq<string>, InstancePath>, es: seq<NamedPath>): Result<Dict<seq<string>, InstancePath>>
  {
    if |es| == 0 then Ok(d)
    else
      var d' :- File(d, es[..|es| - 1]);
      var e := es[|es| - 1];
      if e.names in d'.m then Err("AssertionError: name path") else Ok(d'.Put(e.names, e.path))
  }

  /** Filing `a + b` is filing `a`, then `b`. */
  lemma {:induction false} FileAppend(d: Dict<seq<string>, InstancePath>, a: seq<NamedPath>, b: seq<NamedPath>)
    ensures File(d, a + b) == if File(d, a).Err? then File(d, a) else File(File(d, a).value, b)
  {
    if |b| == 0 {
      assert a + b == a;
    } else {
      var b' := b[..|b| - 1];
      assert (a + b)[..|a + b| - 1] == a + b';
      assert (a + b)[|a + b| - 1] == b[|b| - 1];
      FileAppend(d, a, b');
    }
  }

  /** The name paths of the entries. */
  function NamesOf(es: seq<NamedPath>): (ns: seq<seq<string>>)
    ensures |ns| == |es| && forall k :: 0 <= k < |es| ==> ns[k] == es[k].names
  {
    seq(|es|, k requires 0 <= k < |es| => es[k].names)
  }

  /** No two entries share a name path. */
  predicate UniqueNamePaths(es: seq<NamedPath>) {
    forall a, b :: 0 <= a < b < |es| ==> es[a].names != es[b].names
  }

  /** Filing into an empty dictionary lists the name paths in order. */
  lemma {:induction false} FileFreshKeys(es: seq<NamedPath>)
    ensures File(Empty(), es).Ok? ==> File(Empty(), es).value.Valid() && File(Empty(), es).value.keys == NamesOf(es)
  {
    if |es| > 0 {
      var init := es[..|es| - 1];
      FileFreshKeys(init);
      if File(Empty(), es).Ok? {
        assert NamesOf(es) == NamesOf(init) + [es[|es| - 1].names];
      }
    }
  }

  /** Filing into an empty dictionary succeeds exactly when the name paths
      are all different. */
  lemma {:induction false} FileFreshOk(es: seq<NamedPath>)
    ensures File(Empty(), es).Ok? <==> UniqueNamePaths(es)
  {
    if |es| > 0 {
      var init := es[..|es| - 1];
      var e := es[|es| - 1];
      FileFreshOk(init);
      FileFreshKeys(init);
      assert forall k :: 0 <= k < |init| ==> init[k] == es[k];
      if File(Empty(), init).Ok? {
        var d := File(Empty(), init).value;
        assert e.names in d.m <==> e.names in NamesOf(init);
      }
    }
  }

  /** Then each name path maps to its id path. */
  lemma {:induction false} FileFreshValues(es: seq<NamedPath>)
    ensures File(Empty(), es).Ok? ==> forall k :: 0 <= k < |es| ==> es[k].names in File(Empty(), es).value.m && File(Empty(), es).value.m[es[k].names] == es[k].path
  {
    if |es| > 0 && File(Empty(), es).Ok? {
      var init := es[..|es| - 1];
      FileFreshValues(init);
      FileFreshOk(es);
      assert forall k :: 0 <= k < |init| ==> init[k] == es[k];
    }
  }

  /** What the walk from one instance promises the traversal. */
  ghost predicate Traversed(r: Result<Dict<seq<string>, InstancePath>>, walk: Result<seq<NamedPath>>, d: Dict<seq<string>, InstancePath>) {
    && (r.Ok? <==> walk.Ok? && File(d, walk.value).Ok?)
    && (r.Ok? ==> r == File(d, walk.value))
  }

  /** `traverse(inst, path, namePath)`: file the occurrence under its name
      path, then, below an assembly, traverse each of its instances. */
  method Traverse(doc: Document, fuel: nat, inst: InstanceId, path: seq<InstanceId>, names: seq<string>, result: Dict<seq<string>, InstancePath>)
    returns (r: Result<Dict<seq<string>, InstancePath>>)
    requires doc.assemblies.Valid() && InstancesListed(doc)
    ensures Traversed(r, Walk(doc, fuel, inst, path, names), result)
    decreases fuel, 0
  {
    var lookup := LookupId(doc, inst);
    if lookup.Err? {
      return Err(lookup.msg);
    }
    var subPath := path + [inst];
    var subNames := names + [lookup.value.instance.name];
    var here := NamedPath(subNames, InstancePath(doc.rootAssemblyId, subPath));
    assert File(result, [here]) == (if subNames in result.m then Err("AssertionError: name path") else Ok(result.Put(subNames, here.path))) by {
      assert [here][..0] == [];
    }
    if subNames in result.m {
      FileAppend(result, [here], []);
      ghost var w := Walk(doc, fuel, inst, path, names);
      if w.Ok? {
        assert w.value[..1] == [here];
        FileAppend(result, [here], w.value[1..]);
        assert [here] + w.value[1..] == w.value;
      }
      return Err("AssertionError: name path");
    }
    var filed := result.Put(subNames, here.path);
    if lookup.value.archetype.PartArchetype? {
      return Ok(filed);
    }
    if fuel == 0 {
      return Err("RecursionError");
    }
    var subs := InstanceIds(lookup.value.archetype.assembly);
    r := TraverseAll(doc, fuel - 1, subs, subPath, subNames, filed);
    ghost var below := WalkAll(doc, fuel - 1, subs, subPath, subNames);
    if below.Ok? {
      FileAppend(result, [here], below.value);
    }
  }

  /** What the walk over several instances promises the traversal after the
      first `i` of them. */
  ghost predicate TraversedUpTo(doc: Document, fuel: nat, ids: seq<InstanceId>, path: seq<InstanceId>, names: seq<string>,
                                result: Dict<seq<string>, InstancePath>, i: nat, acc: Dict<seq<string>, InstancePath>)
    requires doc.assemblies.Valid() && InstancesListed(doc)
  {
    && i <= |ids|
    && WalkAll(doc, fuel, ids[..i], path, names).Ok?
    && File(result, WalkAll(doc, fuel, ids[..i], path, names).value) == Ok(acc)
  }

  /** `for sub in ...: traverse(sub.id, subPath, subNamePath)`. */
  method TraverseAll(doc: Document, fuel: nat, ids: seq<InstanceId>, path: seq<InstanceId>, names: seq<string>, result: Dict<seq<string>, InstancePath>)
    returns (r: Result<Dict<seq<string>, InstancePath>>)
    requires doc.assemblies.Valid() && InstancesListed(doc)
    ensures Traversed(r, WalkAll(doc, fuel, ids, path, names), result)
    decreases fuel, 1, |ids|
  {
    var acc := result;
    assert ids[..0] == [];
    for i := 0 to |ids|
      invariant TraversedUpTo(doc, fuel, ids, path, names, result, i, acc)
    {
      var next := Traverse(doc, fuel, ids[i], path, names, acc);
      WalkAllNext(doc, fuel, ids, path, names, result, i, acc);
      if next.Err? {
        WalkAllStops(doc, fuel, ids, path, names, result, i + 1);
        return next;
      }
      acc := next.value;
    }
    assert ids[..|ids|] == ids;
    return Ok(acc);
  }

  /** One more instance extends the walk by its own entries. */
  lemma WalkAllNext(doc: Document, fuel: nat, ids: seq<InstanceId>, path: seq<InstanceId>, names: seq<string>,
                    result: Dict<seq<string>, InstancePath>, i: nat, acc: Dict<seq<string>, InstancePath>)
    requires doc.assemblies.Valid() && InstancesListed(doc)
    requires TraversedUpTo(doc, fuel, ids, path, names, result, i, acc) && i < |ids|
    ensures var w := Walk(doc, fuel, ids[i], path, names);
      w.Ok? && File(acc, w.value).Ok? ==>
      TraversedUpTo(doc, fuel, ids, path, names, result, i + 1, File(acc, w.value).value)
    ensures var w := Walk(doc, fuel, ids[i], path, names);
      !(w.Ok? && File(acc, w.value).Ok?) ==>
      WalkAll(doc, fuel, ids[..i + 1], path, names).Err? || File(result, WalkAll(doc, fuel, ids[..i + 1], path, names).value).Err?
  {
    assert ids[..i + 1][..i] == ids[..i];
    var w := Walk(doc, fuel, ids[i], path, names);
    if w.Ok? {
      FileAppend(result, WalkAll(doc, fuel, ids[..i], path, names).value, w.value);
    }
  }

  /** A walk that fails, or whose filing fails, after some of the instances
      fails over all of them. */
  lemma {:induction false} WalkAllStops(doc: Document, fuel: nat, ids: seq<InstanceId>, path: seq<InstanceId>, names: seq<string>,
                                        result: Dict<seq<string>, InstancePath>, j: nat)
    requires doc.assemblies.Valid() && InstancesListed(doc) && j <= |ids|
    requires WalkAll(doc, fuel, ids[..j], path, names).Err? || File(result, WalkAll(doc, fuel, ids[..j], path, names).value).Err?
    ensures WalkAll(doc, fuel, ids, path, names).Err? || File(result, WalkAll(doc, fuel, ids, path, names).value).Err?
    decreases |ids| - j
  {
    if j < |ids| {
      var w := WalkAll(doc, fuel, ids[..j + 1], path, names);
      assert ids[..j + 1][..j] == ids[..j];
      if w.Ok? {
        var a := WalkAll(doc, fuel, ids[..j], path, names).value;
        var b := Walk(doc, fuel, ids[j], path, names).value;
        FileAppend(result, a, b);
      }
      WalkAllStops(doc, fuel, ids, path, names, result, j + 1);
    } else {
      assert ids[..j] == ids;
    }
  }

  /** `OnshapeData.occurranceNamePaths`: every occurrence below the root
      assembly by its path of instance names. It fails exactly when an
      instance does not look up or two occurrences have the same name path;
      otherwise it lists the name paths in the order of the walk, each
      mapped to its id path. */
  method OccurranceNamePaths(doc: Document) returns (r: Result<Dict<seq<string>, InstancePath>>)
    requires doc.assemblies.Valid() && InstancesListed(doc)
    ensures r.Ok? <==> NamePathList(doc).Ok? && UniqueNamePaths(NamePathList(doc).value)
    ensures r.Ok? ==>
      && r.value.Valid()
      && r.value.keys == NamesOf(NamePathList(doc).value)
      && forall k :: 0 <= k < |NamePathList(doc).value| ==> r.value.m[NamePathList(doc).value[k].names] == NamePathList(doc).value[k].path
  {
    if doc.rootAssemblyId !in doc.assemblies.m {
      return Err("KeyError: root assembly");
    }
    var roots := doc.assemblies.m[doc.rootAssemblyId].instances.keys;
    r := TraverseAll(doc, Depth(doc), roots, [], [], Empty());
    if NamePathList(doc).Ok? {
      FileFreshKeys(NamePathList(doc).value);
      FileFreshOk(NamePathList(doc).value);
      FileFreshValues(NamePathList(doc).value);
    }
  }
}
