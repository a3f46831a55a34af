/** Joint helpers (`onshape_mjcf/onshape_data/joint.py`): the transform of a
    mated entity's coordinate system, and the limits of a revolute or
    prismatic mate read from its parameters. */
module Joint {
  import opened Wrappers
  import opened Dicts
  import opened Ids
  import opened Linalg
  import opened OnshapeData
  import opened OnshapeParams

  /** `get_T_part_mate(matedEntity)`: start from the identity, put the stacked
      axes, transposed, into the rotation block and the origin into the last
      column, which is the transform `CSMatrix` of the mated coordinate
      system. */
  method GetTPartMate(matedCS: CoordinateSystem) returns (T: array2<real>)
    ensures fresh(T) && T.Length0 == 4 && T.Length1 == 4
    ensures forall i, j :: 0 <= i < 4 && 0 <= j < 4 ==> T[i, j] == Entry(CSMatrix(matedCS), i, j)
  {
    T := new real[4, 4]((i, j) => if i == j then 1.0 else 0.0);
    SetColumn(T, 0, matedCS.xAxis);
    SetColumn(T, 1, matedCS.yAxis);
    SetColumn(T, 2, matedCS.zAxis);
    SetColumn(T, 3, matedCS.origin);
  }

  /** Python's `x == True`: true for `True` and for a number equal to 1. */
  predicate IsTrue(v: Json) {
    v == JBool(true) || v == JNum(1.0)
  }

  /** `parameters[key]`, a `KeyError` when the key is missing. */
  function Param(mate: Mate, key: string): (r: Result<Option<Parameter>>)
    ensures r.Ok? <==> key in mate.parameters.m
    ensures r.Ok? ==> r.value == mate.parameters.m[key]
  {
    if key in mate.parameters.m then Ok(mate.parameters.m[key]) else Err("KeyError: " + key)
  }

  /** The `value` of a parameter; an unknown parameter is `None`, which has no
      value (`AttributeError`). */
  function ParamValue(p: Option<Parameter>): (r: Result<Json>)
    ensures r.Ok? <==> p.Some?
    ensures r.Ok? ==> r.value == p.value.value
  {
    match p
    case None => Err("AttributeError: 'NoneType' object has no attribute 'value'")
    case Some(q) => Ok(q.value)
  }

  /** The parameter ids of the lower and upper limit of a joint type. */
  function LimitKeys(jointType: string): Option<(string, string)> {
    if jointType == "revolute" then Some(("limitAxialZMin", "limitAxialZMax"))
    else if jointType == "prismatic" then Some(("limitZMin", "limitZMax"))
    else None
  }

  /** Read one limit: the parameter must exist and be readable. */
  function ReadLimit(config: Dict<string, string>, mate: Mate, key: string, parse: string -> Option<real>): (r: Result<Option<Value>>)
    ensures r.Ok? ==> key in mate.parameters.m && r == ReadValue(config, mate.parameters.m[key], parse)
    ensures key in mate.parameters.m ==> r == ReadValue(config, mate.parameters.m[key], parse)
  {
    var p :- Param(mate, key);
    ReadValue(config, p, parse)
  }

  /** `getLimits(data, jointType, id)`: `None` when the mate's limits are not
      enabled, otherwise the lower and upper limit. `mates` is
      `data.mateParameters`, whose own failure surfaces here, and `config` is
      `data.configuration_parameters`. A joint type other than revolute or
      prismatic with limits enabled leaves the limits unbound in the source
      (`UnboundLocalError`). */
  function GetLimits(mates: Result<Dict<FeatureId, Mate>>, config: Dict<string, string>, jointType: string, id: FeatureId, parse: string -> Option<real>)
    : (r: Result<Option<(Option<Value>, Option<Value>)>>)
    ensures mates.Err? ==> r == Err(mates.msg)
    ensures mates.Ok? && id !in mates.value.m ==> r.Err?
    ensures r.Ok? ==> mates.Ok? && id in mates.value.m && "limitsEnabled" in mates.value.m[id].parameters.m
    ensures r.Ok? ==>
      var mate := mates.value.m[id];
      var enabled := mate.parameters.m["limitsEnabled"];
      && enabled.Some?
      && (r.value.None? <==> !IsTrue(enabled.value.value))
      && (r.value.Some? ==>
            && LimitKeys(jointType).Some?
            && var (lo, hi) := LimitKeys(jointType).value;
            && Ok(r.value.value.0) == ReadLimit(config, mate, lo, parse)
            && Ok(r.value.value.1) == ReadLimit(config, mate, hi, parse))
  {
    var ms :- mates;
    if id !in ms.m then Err("KeyError: mate")
    else
      var mate := ms.m[id];
      var enabledParam :- Param(mate, "limitsEnabled");
      var enabledValue :- ParamValue(enabledParam);
      if !IsTrue(enabledValue) then Ok(None)
      else
        match LimitKeys(jointType)
        case None => Err("UnboundLocalError: minimum")
        case Some((lo, hi)) =>
          var minimum :- ReadLimit(config, mate, lo, parse);
          var maximum :- ReadLimit(config, mate, hi, parse);
          Ok(Some((minimum, maximum)))
  }

  /** Limits enabled with a readable lower and upper limit are returned as
      read; disabled limits give `None` whatever the other parameters hold. */
  lemma GetLimitsCases(ms: Dict<FeatureId, Mate>, config: Dict<string, string>, jointType: string, id: FeatureId, parse: string -> Option<real>)
    requires id in ms.m && "limitsEnabled" in ms.m[id].parameters.m
    requires ms.m[id].parameters.m["limitsEnabled"].Some?
    ensures !IsTrue(ms.m[id].parameters.m["limitsEnabled"].value.value) ==> GetLimits(Ok(ms), config, jointType, id, parse) == Ok(None)
    ensures IsTrue(ms.m[id].parameters.m["limitsEnabled"].value.value) && LimitKeys(jointType).None? ==>
      GetLimits(Ok(ms), config, jointType, id, parse).Err?
    ensures IsTrue(ms.m[id].parameters.m["limitsEnabled"].value.value) && LimitKeys(jointType).Some? ==>
      var (lo, hi) := LimitKeys(jointType).value;
      var mate := ms.m[id];
      ReadLimit(config, mate, lo, parse).Ok? && ReadLimit(config, mate, hi, parse).Ok? ==>
        GetLimits(Ok(ms), config, jointType, id, parse) == Ok(Some((ReadLimit(config, mate, lo, parse).value, ReadLimit(config, mate, hi, parse).value)))
  {
  }
}
