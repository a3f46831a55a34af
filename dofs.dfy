/** DOF classification (`buildDofs` in `onshape_mjcf/robot_description.py`):
    the features of the root assembly, read by name, become sites, equality
    constraints and named degrees of freedom. */
module Dofs {
  import opened Wrappers
  import opened Strings
  import opened Dicts
  import opened Ids
  import opened Linalg
  import opened OnshapeData
  import opened OnshapeParams
  import opened Joint

  /** A named point on an occurrence. The component is filled in later. */
  datatype Site = Site(name: string, transform: M4, parent: InstancePath, parentComp: Option<nat>)

  /** A `closing_` mate: the two occurrences must meet at `point`. */
  datatype EqualityConstraint = EqualityConstraint(point: V3, left: InstancePath, right: InstancePath, leftComp: Option<nat>, rightComp: Option<nat>)

  /** The lower and upper limit of a joint, when enabled. */
  type Limits = Option<(Option<Value>, Option<Value>)>

  /** A degree of freedom between the first mated occurrence (`child`) and
      the second (`parent`). The components are filled in later. */
  datatype RobotDof = RobotDof(
    name: string,
    featureId: FeatureId,
    limits: Limits,
    jointType: string,
    jointTransform: M4,
    child: InstancePath,
    parent: InstancePath,
    childComp: Option<nat>,
    parentComp: Option<nat>)

  /** What `buildDofs` returns: the DOFs by name, the equality constraints and
      the sites, each in the order met. */
  datatype Classified = Classified(dofs: Dict<string, RobotDof>, equalities: seq<EqualityConstraint>, sites: seq<Site>)

  /** What the classification reads besides the features: the document (for
      occurrence transforms), `data.mateParameters`, `data.configuration_parameters`
      and the number parser used by `readExpression`. */
  datatype Source = Source(doc: Document, mates: Result<Dict<FeatureId, Mate>>, config: Dict<string, string>, parse: string -> Option<real>)

  /** The segments of a `dof_` mate name after `dof`, less one trailing `inv`
      or `inverted` segment. */
  function DofParts(name: string): (parts: seq<string>)
    requires StartsWith(name, "dof_")
  {
    assert name == "dof" + "_" + name[4..];
    SplitConcat("dof", name[4..], '_');
    var parts := Split(name, '_')[1..];
    var last := parts[|parts| - 1];
    if last == "inv" || last == "inverted" then parts[..|parts| - 1] else parts
  }

  /** The DOF name: the remaining segments joined by `_`. */
  function DofName(name: string): string
    requires StartsWith(name, "dof_")
  {
    Join(DofParts(name), '_')
  }

  /** `dof_<n>_inv` and `dof_<n>_inverted` name the DOF `<n>`. */
  lemma DofNameInverted(n: string, suffix: string)
    requires suffix == "inv" || suffix == "inverted"
    ensures StartsWith("dof_" + n + "_" + suffix, "dof_")
    ensures DofName("dof_" + n + "_" + suffix) == n
  {
    var name := "dof_" + n + "_" + suffix;
    assert name == "dof" + "_" + (n + "_" + suffix);
    assert name[4..] == n + "_" + suffix;
    SplitConcat("dof", n + "_" + suffix, '_');
    SplitSnoc(n, suffix, '_');
    assert Split(name, '_')[1..] == Split(n, '_') + [suffix];
    assert (Split(n, '_') + [suffix])[..|Split(n, '_')|] == Split(n, '_');
    JoinSplit(n, '_');
  }

  /** `dof_<n>` names the DOF `<n>` when the last segment of `<n>` is not an
      inversion marker. */
  lemma DofNamePlain(n: string)
    requires var s := Split(n, '_'); s[|s| - 1] != "inv" && s[|s| - 1] != "inverted"
    ensures StartsWith("dof_" + n, "dof_")
    ensures DofName("dof_" + n) == n
  {
    var name := "dof_" + n;
    assert name == "dof" + "_" + n;
    assert name[4..] == n;
    SplitConcat("dof", n, '_');
    assert Split(name, '_')[1..] == Split(n, '_');
    JoinSplit(n, '_');
  }

  /** The joint type of a mate type: a revolute or cylindrical mate is
      `continuous` when one of the name's segments is `wheel` or
      `continuous`, else `revolute`; a slider is `prismatic`; a fastened
      mate is `fixed`; any other mate type fails. */
  function JointType(mateType: string, parts: seq<string>): (r: Result<string>)
    ensures r.Ok? <==> mateType in {"REVOLUTE", "CYLINDRICAL", "SLIDER", "FASTENED"}
    ensures r.Ok? ==> r.value in {"continuous", "revolute", "prismatic", "fixed"}
    ensures r == Ok("continuous") <==> mateType in {"REVOLUTE", "CYLINDRICAL"} && ("wheel" in parts || "continuous" in parts)
    ensures r == Ok("revolute") <==> mateType in {"REVOLUTE", "CYLINDRICAL"} && "wheel" !in parts && "continuous" !in parts
    ensures r == Ok("prismatic") <==> mateType == "SLIDER"
    ensures r == Ok("fixed") <==> mateType == "FASTENED"
  {
    if mateType == "REVOLUTE" || mateType == "CYLINDRICAL" then
      if "wheel" in parts || "continuous" in parts then Ok("continuous") else Ok("revolute")
    else if mateType == "SLIDER" then Ok("prismatic")
    else if mateType == "FASTENED" then Ok("fixed")
    else Err("unknown mate type: " + mateType)
  }

  /** The limits of a joint: read for every joint type but `fixed`. */
  function JointLimits(src: Source, jointType: string, id: FeatureId): Result<Limits> {
    if jointType == "fixed" then Ok(None) else GetLimits(src.mates, src.config, jointType, id, src.parse)
  }

  /** The world transform of a mate: the occurrence's transform followed by
      the part-to-mate transform. */
  function WorldMate(src: Source, e: MateDefinition): Result<M4> {
    if e.occurrence !in src.doc.occurrences.m then Err("KeyError: occurrence")
    else Ok(M4Mul(src.doc.occurrences.m[e.occurrence].transform, e.partToMateT))
  }

  /** One iteration of `buildDofs`. */
  function Classify(src: Source, acc: Classified, f: Feature): (r: Result<Classified>)
    // Suppressed features are skipped.
    ensures f.suppressed ==> r == Ok(acc)
    // A mate group is not expected here.
    ensures !f.suppressed && f.MateGroupFeature? ==> r.Err?
    // A connector adds a site when its name starts with `site_`, and nothing else.
    ensures !f.suppressed && f.MateConnectorFeature? ==>
      if StartsWith(f.name, "site_") then
        && (r.Ok? <==> WorldMate(src, f.definition).Ok?)
        && (r.Ok? ==> r.value == acc.(sites := acc.sites + [Site(f.name[5..], WorldMate(src, f.definition).value, f.definition.occurrence, None)]))
      else r == Ok(acc)
    // A mate succeeds exactly when it has two entities and a known first
    // occurrence and, unless it is a `closing_` mate or not a `dof_` mate,
    // a new, non-empty name, a known joint type and readable limits.
    ensures !f.suppressed && f.MateFeature? ==>
      (r.Ok? <==>
        && |f.matedEntities| == 2 && WorldMate(src, f.matedEntities[0]).Ok?
        && (|| StartsWith(f.name, "closing_") || !StartsWith(f.name, "dof_")
            || (&& DofName(f.name) != "" && DofName(f.name) !in acc.dofs.m
                && JointType(f.mateType, DofParts(f.name)).Ok?
                && JointLimits(src, JointType(f.mateType, DofParts(f.name)).value, f.id).Ok?)))
    // `closing_` is tested first: an equality at the first entity's mate point.
    ensures !f.suppressed && f.MateFeature? && r.Ok? && StartsWith(f.name, "closing_") ==>
      r.value == acc.(equalities := acc.equalities + [EqualityConstraint(WorldMate(src, f.matedEntities[0]).value.t, f.matedEntities[0].occurrence, f.matedEntities[1].occurrence, None, None)])
    // A `dof_` mate must have a new, non-empty name.
    ensures !f.suppressed && f.MateFeature? && !StartsWith(f.name, "closing_") && StartsWith(f.name, "dof_") ==>
      (DofName(f.name) == "" || DofName(f.name) in acc.dofs.m ==> r.Err?)
    ensures !f.suppressed && f.MateFeature? && r.Ok? && !StartsWith(f.name, "closing_") && StartsWith(f.name, "dof_") ==>
      var n := DofName(f.name);
      var jointType := JointType(f.mateType, DofParts(f.name));
      && n != "" && n !in acc.dofs.m
      && jointType.Ok? && JointLimits(src, jointType.value, f.id).Ok?
      && r.value == acc.(dofs := acc.dofs.Put(n, RobotDof(n, f.id, JointLimits(src, jointType.value, f.id).value, jointType.value,
                                                         WorldMate(src, f.matedEntities[0]).value,
                                                         f.matedEntities[0].occurrence, f.matedEntities[1].occurrence, None, None)))
    // Any other mate name adds nothing.
    ensures !f.suppressed && f.MateFeature? && r.Ok? && !StartsWith(f.name, "closing_") && !StartsWith(f.name, "dof_") ==> r.value == acc
  {
    if f.suppressed then Ok(acc)
    else
      match f
      case MateConnectorFeature(_, _, name, definition) =>
        if StartsWith(name, "site_") then
          var T := WorldMate(src, definition);
          if T.Err? then Err(T.msg)
          else Ok(acc.(sites := acc.sites + [Site(name[5..], T.value, definition.occurrence, None)]))
        else Ok(acc)
      case MateFeature(id, _, name, mateType, entities) =>
        if |entities| != 2 then Err("AssertionError: two mated entities")
        else
          var T :- WorldMate(src, entities[0]);
          if StartsWith(name, "closing_") then
            Ok(acc.(equalities := acc.equalities + [EqualityConstraint(T.t, entities[0].occurrence, entities[1].occurrence, None, None)]))
          else if StartsWith(name, "dof_") then
            var parts := DofParts(name);
            var n := Join(parts, '_');
            if n == "" then Err("unnamed DOF")
            else if n in acc.dofs.m then Err("AssertionError: duplicate DOF")
            else
              var jointType :- JointType(mateType, parts);
              var limits :- JointLimits(src, jointType, id);
              Ok(acc.(dofs := acc.dofs.Put(n, RobotDof(n, id, limits, jointType, T, entities[0].occurrence, entities[1].occurrence, None, None))))
          else Ok(acc)
      case MateGroupFeature(_, _, _, _) => Err("unknown feature type")
  }

  /** The classification of the features from index `i` on, after `acc`. */
  function ClassifyFrom(src: Source, fs: seq<Feature>, i: nat, acc: Classified): Result<Classified>
    requires i <= |fs|
    decreases |fs| - i
  {
    if i == |fs| then Ok(acc)
    else
      var next :- Classify(src, acc, fs[i]);
      ClassifyFrom(src, fs, i + 1, next)
  }

  /** `buildDofs(data)`: classify the features of the root assembly. */
  function BuildDofsSpec(src: Source): Result<Classified>
    requires WellFormed(src.doc)
  {
    if src.doc.rootAssemblyId !in src.doc.assemblies.m then Err("KeyError: root assembly")
    else ClassifyFrom(src, src.doc.assemblies.m[src.doc.rootAssemblyId].features.Values(), 0, Classified(Empty(), [], []))
  }

  /** The DOF `n` comes from a non-suppressed `dof_` mate of `fs` named for
      `n`, whose first entity is the child and whose second is the parent. */
  ghost predicate FromMate(fs: seq<Feature>, n: string, d: RobotDof) {
    exists k :: 0 <= k < |fs| && fs[k].MateFeature? && !fs[k].suppressed
      && !StartsWith(fs[k].name, "closing_") && StartsWith(fs[k].name, "dof_")
      && |fs[k].matedEntities| == 2
      && DofName(fs[k].name) == n == d.name && d.featureId == fs[k].id
      && d.child == fs[k].matedEntities[0].occurrence && d.parent == fs[k].matedEntities[1].occurrence
  }

  /** Every DOF the classification returns has a non-empty name, is listed
      once, comes from a `dof_` mate named for it, and has no components yet. */
  ghost predicate SoundDofs(fs: seq<Feature>, dofs: Dict<string, RobotDof>) {
    && dofs.Valid()
    && forall n :: n in dofs.m ==> n != "" && FromMate(fs, n, dofs.m[n]) && dofs.m[n].childComp.None? && dofs.m[n].parentComp.None?
  }

  lemma {:induction false} ClassifyFromSound(src: Source, fs: seq<Feature>, i: nat, acc: Classified)
    requires i <= |fs| && SoundDofs(fs, acc.dofs)
    requires ClassifyFrom(src, fs, i, acc).Ok?
    ensures SoundDofs(fs, ClassifyFrom(src, fs, i, acc).value.dofs)
    decreases |fs| - i
  {
    if i < |fs| {
      var next := Classify(src, acc, fs[i]).value;
      assert SoundDofs(fs, next.dofs);
      ClassifyFromSound(src, fs, i + 1, next);
    }
  }

  /** The DOFs `buildDofs` returns are sound. */
  lemma BuildDofsSound(src: Source)
    requires WellFormed(src.doc) && BuildDofsSpec(src).Ok?
    ensures SoundDofs(src.doc.assemblies.m[src.doc.rootAssemblyId].features.Values(), BuildDofsSpec(src).value.dofs)
  {
    var fs := src.doc.assemblies.m[src.doc.rootAssemblyId].features.Values();
    ClassifyFromSound(src, fs, 0, Classified(Empty(), [], []));
  }

  /** `buildDofs(data)`: fill the DOF dictionary and the lists of equality
      constraints and sites, one feature at a time. */
  method BuildDofs(src: Source) returns (r: Result<Classified>)
    requires WellFormed(src.doc)
    ensures r == BuildDofsSpec(src)
  {
    if src.doc.rootAssemblyId !in src.doc.assemblies.m {
      return Err("KeyError: root assembly");
    }
    var fs := src.doc.assemblies.m[src.doc.rootAssemblyId].features.Values();
    var dofs: Dict<string, RobotDof> := Empty();
    var equalConstraints: seq<EqualityConstraint> := [];
    var sites: seq<Site> := [];
    for i := 0 to |fs|
      invariant BuildDofsSpec(src) == ClassifyFrom(src, fs, i, Classified(dofs, equalConstraints, sites))
    {
      var f := fs[i];
      if f.suppressed {
        continue;
      }
      match f
      case MateConnectorFeature(_, _, name, definition) =>
        if StartsWith(name, "site_") {
          var T := WorldMate(src, definition);
          if T.Err? {
            return Err(T.msg);
          }
          sites := sites + [Site(name[5..], T.value, definition.occurrence, None)];
        }
      case MateFeature(id, _, name, mateType, entities) =>
        if |entities| != 2 {
          return Err("AssertionError: two mated entities");
        }
        var T := WorldMate(src, entities[0]);
        if T.Err? {
          return Err(T.msg);
        }
        if StartsWith(name, "closing_") {
          equalConstraints := equalConstraints + [EqualityConstraint(T.value.t, entities[0].occurrence, entities[1].occurrence, None, None)];
        } else if StartsWith(name, "dof_") {
          var parts := DofParts(name);
          var n := Join(parts, '_');
          if n == "" {
            return Err("unnamed DOF");
          }
          if n in dofs.m {
            return Err("AssertionError: duplicate DOF");
          }
          var jointType := JointType(mateType, parts);
          if jointType.Err? {
            return Err(jointType.msg);
          }
          var limits := JointLimits(src, jointType.value, id);
          if limits.Err? {
            return Err(limits.msg);
          }
          dofs := dofs.Put(n, RobotDof(n, id, limits.value, jointType.value, T.value, entities[0].occurrence, entities[1].occurrence, None, None));
        }
      case MateGroupFeature(_, _, _, _) =>
        return Err("unknown feature type");
    }
    return Ok(Classified(dofs, equalConstraints, sites));
  }
}
