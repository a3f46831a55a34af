/** Mate parameters and configuration values (`onshape_mjcf/onshape_data/__init__.py`):
    the `mateParameters` table decoded from the assembly's feature list, the
    `configuration_parameters` decoded from the root's configuration string,
    and `readExpression`, which turns a parameter expression such as
    `"30 deg"` or `"#width"` into a number or a length. Python's `float()` on
    a string is a parameter of the model (`parse`), since its rounding is
    IEEE arithmetic that the model does not reproduce. */
module OnshapeParams {
  import opened Wrappers
  import opened Strings
  import opened Dicts
  import opened Ids

  /** A JSON scalar as the API sends it. */
  datatype Json = JStr(str: string) | JBool(b: bool) | JNum(num: real)

  /** One entry of a mate's `parameters` list: its `typeName` and the fields
      of its `message` that the decoders read. */
  datatype ParamJson = ParamJson(
    typeName: string, parameterId: string, nodeId: string, enumName: string, value: Json,
    units: string, expression: string, isInteger: bool, isNull: bool, nullValue: string)

  /** One entry of the assembly's feature list. */
  datatype FeatureJson = FeatureJson(typeName: string, featureType: string, featureId: string, name: string, parameters: seq<ParamJson>)

  /** The decoded parameter classes (`BTMParameterEnum`, `...Boolean`,
      `...Quantity`, `...NullableQuantity`). */
  datatype Parameter =
    | EnumParam(parameterId: string, nodeId: string, enumType: string, value: Json)
    | BooleanParam(parameterId: string, nodeId: string, value: Json)
    | QuantityParam(parameterId: string, nodeId: string, units: string, value: Json, expression: string, isInteger: bool)
    | NullableQuantityParam(parameterId: string, nodeId: string, units: string, value: Json, expression: string, isInteger: bool, isNull: bool, nullValue: string)

  /** A mate's parameters by id; `None` for a parameter of an unknown type. */
  datatype Mate = Mate(id: FeatureId, name: string, parameters: Dict<string, Option<Parameter>>)

  /** `btm_types.get(typeName)` and the decoder it selects. */
  function Decode(p: ParamJson): (r: Option<Parameter>)
    ensures r.None? <==> p.typeName !in {"BTMParameterEnum", "BTMParameterQuantity", "BTMParameterBoolean", "BTMParameterNullableQuantity"}
    ensures r.Some? ==> r.value.parameterId == p.parameterId
  {
    match p.typeName
    case "BTMParameterEnum" => Some(EnumParam(p.parameterId, p.nodeId, p.enumName, p.value))
    case "BTMParameterBoolean" => Some(BooleanParam(p.parameterId, p.nodeId, p.value))
    case "BTMParameterQuantity" => Some(QuantityParam(p.parameterId, p.nodeId, p.units, p.value, p.expression, p.isInteger))
    case "BTMParameterNullableQuantity" =>
      Some(NullableQuantityParam(p.parameterId, p.nodeId, p.units, p.value, p.expression, p.isInteger, p.isNull, p.nullValue))
    case _ => None
  }

  /** The parameter ids of `ps` are pairwise different. */
  predicate DistinctIds(ps: seq<ParamJson>) {
    forall i, j :: 0 <= i < j < |ps| ==> ps[i].parameterId != ps[j].parameterId
  }

  /** The ids of `ps`, in order. */
  function ParamIds(ps: seq<ParamJson>): (ids: seq<string>)
    ensures |ids| == |ps| && forall i :: 0 <= i < |ps| ==> ids[i] == ps[i].parameterId
  {
    if |ps| == 0 then [] else ParamIds(ps[..|ps| - 1]) + [ps[|ps| - 1].parameterId]
  }

  /** The parameter table of one mate, entry by entry; a repeated id fails. */
  function ParamsOf(ps: seq<ParamJson>): (r: Result<Dict<string, Option<Parameter>>>)
    ensures r.Ok? ==> r.value.Valid() && r.value.keys == ParamIds(ps)
    ensures r.Err? ==> r.msg == "duplicate parameter"
  {
    if |ps| == 0 then Ok(Empty())
    else
      var p := ps[|ps| - 1];
      var d :- ParamsOf(ps[..|ps| - 1]);
      if p.parameterId in d.m then Err("duplicate parameter")
      else Ok(d.Put(p.parameterId, Decode(p)))
  }

  /** The table is built exactly when no id repeats. */
  lemma {:induction false} ParamsOfOk(ps: seq<ParamJson>)
    ensures ParamsOf(ps).Ok? <==> DistinctIds(ps)
  {
    if |ps| > 0 {
      var init := ps[..|ps| - 1];
      var p := ps[|ps| - 1];
      ParamsOfOk(init);
      assert DistinctIds(ps) ==> DistinctIds(init);
      if ParamsOf(init).Ok? {
        var d := ParamsOf(init).value;
        if p.parameterId in d.m {
          var i :| 0 <= i < |init| && d.keys[i] == p.parameterId;
          assert ps[i].parameterId == ps[|ps| - 1].parameterId;
        } else {
          forall i | 0 <= i < |init|
            ensures ps[i].parameterId != p.parameterId
          {
            assert d.keys[i] in d.m;
          }
        }
      }
    }
  }

  /** Each parameter is stored under its id, decoded by its type name. */
  lemma {:induction false} ParamsOfValues(ps: seq<ParamJson>, i: nat)
    requires ParamsOf(ps).Ok? && i < |ps|
    ensures ps[i].parameterId in ParamsOf(ps).value.m
    ensures ParamsOf(ps).value.m[ps[i].parameterId] == Decode(ps[i])
  {
    var init := ps[..|ps| - 1];
    var p := ps[|ps| - 1];
    var d := ParamsOf(init).value;
    assert p.parameterId !in d.m && ParamsOf(ps).value == d.Put(p.parameterId, Decode(p));
    if i < |init| {
      ParamsOfValues(init, i);
      assert ps[i] == init[i];
    }
  }

  /** A feature the table keeps. */
  predicate IsMate(f: FeatureJson) {
    f.typeName == "BTMMate"
  }

  /** What one kept feature must satisfy. */
  predicate WellFormedMate(f: FeatureJson) {
    f.featureType == "mate" && DistinctIds(f.parameters)
  }

  /** `mateParameters`, feature by feature: features that are not `BTMMate`
      are skipped; a later mate with the same id replaces an earlier one. */
  function MatesOf(features: seq<FeatureJson>): (r: Result<Dict<FeatureId, Mate>>)
    ensures r.Ok? <==> forall i :: 0 <= i < |features| && IsMate(features[i]) ==> WellFormedMate(features[i])
    ensures r.Ok? ==> r.value.Valid()
  {
    if |features| == 0 then Ok(Empty())
    else
      var init := features[..|features| - 1];
      var f := features[|features| - 1];
      match MatesOf(init)
      case Err(e) => Err(e)
      case Ok(d) =>
        if !IsMate(f) then Ok(d)
        else if f.featureType != "mate" then Err("AssertionError: featureType")
        else
          ParamsOfOk(f.parameters);
          match ParamsOf(f.parameters)
          case Err(e) => Err(e)
          case Ok(ps) => Ok(d.Put(FeatureId(f.featureId), Mate(FeatureId(f.featureId), f.name, ps)))
  }

  /** Every kept feature has an entry, and nothing else does. */
  lemma {:induction false} MatesOfKeys(features: seq<FeatureJson>, k: FeatureId)
    requires MatesOf(features).Ok?
    ensures k in MatesOf(features).value.m <==> exists i :: 0 <= i < |features| && IsMate(features[i]) && FeatureId(features[i].featureId) == k
  {
    if |features| > 0 {
      var init := features[..|features| - 1];
      MatesOfKeys(init, k);
      if exists i :: 0 <= i < |init| && IsMate(init[i]) && FeatureId(init[i].featureId) == k {
        var i :| 0 <= i < |init| && IsMate(init[i]) && FeatureId(init[i].featureId) == k;
        assert features[i] == init[i];
      }
      if exists i :: 0 <= i < |features| && IsMate(features[i]) && FeatureId(features[i].featureId) == k {
        var i :| 0 <= i < |features| && IsMate(features[i]) && FeatureId(features[i].featureId) == k;
        if i < |init| {
          assert init[i] == features[i];
        }
      }
    }
  }

  /** The entry of a mate id comes from the last feature with that id: its
      name, and its parameters decoded in order. */
  lemma {:induction false} MatesOfLast(features: seq<FeatureJson>, i: nat)
    requires MatesOf(features).Ok?
    requires i < |features| && IsMate(features[i])
    requires forall j :: i < j < |features| && IsMate(features[j]) ==> features[j].featureId != features[i].featureId
    ensures FeatureId(features[i].featureId) in MatesOf(features).value.m
    ensures var mate := MatesOf(features).value.m[FeatureId(features[i].featureId)];
      && mate.id == FeatureId(features[i].featureId) && mate.name == features[i].name
      && Ok(mate.parameters) == ParamsOf(features[i].parameters)
  {
    var init := features[..|features| - 1];
    if i < |init| {
      assert features[i] == init[i];
      MatesOfLast(init, i);
    }
  }

  /** `method` form of `MatesOf`: the loops of `mateParameters`. */
  method MateParameters(features: seq<FeatureJson>) returns (r: Result<Dict<FeatureId, Mate>>)
    ensures r == MatesOf(features)
  {
    var mates: Dict<FeatureId, Mate> := Empty();
    for i := 0 to |features|
      invariant MatesOf(features[..i]) == Ok(mates)
    {
      var f := features[i];
      assert features[..i + 1][..i] == features[..i];
      if f.typeName != "BTMMate" {
        continue;
      }
      if f.featureType != "mate" {
        MatesOfPrefixErr(features, i + 1);
        return Err("AssertionError: featureType");
      }
      var parameters := DecodeParameters(f.parameters);
      if parameters.Err? {
        MatesOfPrefixErr(features, i + 1);
        return Err(parameters.msg);
      }
      mates := mates.Put(FeatureId(f.featureId), Mate(FeatureId(f.featureId), f.name, parameters.value));
    }
    assert features[..|features|] == features;
    r := Ok(mates);
  }

  /** The inner loop of `mateParameters`: one mate's parameter table. */
  method DecodeParameters(ps: seq<ParamJson>) returns (r: Result<Dict<string, Option<Parameter>>>)
    ensures r == ParamsOf(ps)
  {
    var parameters: Dict<string, Option<Parameter>> := Empty();
    for j := 0 to |ps|
      invariant ParamsOf(ps[..j]) == Ok(parameters)
    {
      var p := ps[j];
      assert ps[..j + 1][..j] == ps[..j];
      if p.parameterId in parameters.m {
        PrefixFails(ps, j + 1);
        return Err("duplicate parameter");
      }
      parameters := parameters.Put(p.parameterId, Decode(p));
    }
    assert ps[..|ps|] == ps;
    r := Ok(parameters);
  }

  /** A repeated parameter id in a prefix is repeated in the whole list. */
  lemma PrefixFails(ps: seq<ParamJson>, n: nat)
    requires n <= |ps| && ParamsOf(ps[..n]).Err?
    ensures ParamsOf(ps).Err?
  {
    ParamsOfOk(ps[..n]);
    ParamsOfOk(ps);
    var i, j :| 0 <= i < j < n && ps[..n][i].parameterId == ps[..n][j].parameterId;
    assert ps[i].parameterId == ps[j].parameterId;
  }

  /** The first feature that fails decides the error. */
  lemma {:induction false} MatesOfPrefixErr(features: seq<FeatureJson>, n: nat)
    requires n <= |features| && MatesOf(features[..n]).Err?
    ensures MatesOf(features) == MatesOf(features[..n])
  {
    if n < |features| {
      var init := features[..|features| - 1];
      assert init[..n] == features[..n];
      MatesOfPrefixErr(init, n);
    } else {
      assert features[..n] == features;
    }
  }

  /** `configuration_parameters`, piece by piece: a `key=value` piece sets the
      key to the value with every `+` turned into a space; pieces with no `=`
      or more than one are ignored. */
  function ConfigOf(pieces: seq<string>): (d: Dict<string, string>)
    ensures d.Valid()
  {
    if |pieces| == 0 then Empty()
    else
      var d := ConfigOf(pieces[..|pieces| - 1]);
      var kv := Split(pieces[|pieces| - 1], '=');
      if |kv| == 2 then d.Put(kv[0], ReplaceChar(kv[1], '+', ' ')) else d
  }

  /** Piece `i` is `key=value` for exactly one `=`. */
  predicate Defines(piece: string, key: string) {
    var kv := Split(piece, '=');
    |kv| == 2 && kv[0] == key
  }

  /** A key has a value exactly when some piece defines it. */
  lemma {:induction false} ConfigOfKeys(pieces: seq<string>, key: string)
    ensures key in ConfigOf(pieces).m <==> exists i :: 0 <= i < |pieces| && Defines(pieces[i], key)
  {
    if |pieces| > 0 {
      var init := pieces[..|pieces| - 1];
      ConfigOfKeys(init, key);
      assert forall i :: 0 <= i < |init| ==> init[i] == pieces[i];
      if exists i :: 0 <= i < |pieces| && Defines(pieces[i], key) {
        var i :| 0 <= i < |pieces| && Defines(pieces[i], key);
        if i < |init| {
          assert Defines(init[i], key);
        }
      }
    }
  }

  /** The value of a key is the one of the last piece that defines it, with
      `+` turned into spaces. */
  lemma {:induction false} ConfigOfLast(pieces: seq<string>, key: string, i: nat)
    requires i < |pieces| && Defines(pieces[i], key)
    requires forall j :: i < j < |pieces| ==> !Defines(pieces[j], key)
    ensures key in ConfigOf(pieces).m
    ensures ConfigOf(pieces).m[key] == ReplaceChar(Split(pieces[i], '=')[1], '+', ' ')
  {
    var init := pieces[..|pieces| - 1];
    if i < |init| {
      assert init[i] == pieces[i];
      ConfigOfLast(init, key, i);
      assert !Defines(pieces[|pieces| - 1], key);
    }
  }

  /** No value holds a `+`. */
  lemma {:induction false} ConfigOfNoPlus(pieces: seq<string>, key: string)
    requires key in ConfigOf(pieces).m
    ensures '+' !in ConfigOf(pieces).m[key]
  {
    var init := pieces[..|pieces| - 1];
    var kv := Split(pieces[|pieces| - 1], '=');
    if |kv| == 2 && kv[0] == key {
      var v := ReplaceChar(kv[1], '+', ' ');
      assert forall i :: 0 <= i < |v| ==> v[i] != '+';
    } else {
      ConfigOfNoPlus(init, key);
    }
  }

  /** `configuration_parameters` on the root's `fullConfiguration` string. */
  method ConfigurationParameters(fullConfiguration: string) returns (config: Dict<string, string>)
    ensures config == ConfigOf(Split(fullConfiguration, ';'))
  {
    var parts := Split(fullConfiguration, ';');
    config := Empty();
    for i := 0 to |parts|
      invariant config == ConfigOf(parts[..i])
    {
      var kv := Split(parts[i], '=');
      assert parts[..i + 1][..i] == parts[..i];
      if |kv| == 2 {
        config := config.Put(kv[0], ReplaceChar(kv[1], '+', ' '));
      }
    }
    assert parts[..|parts|] == parts;
  }

  /** `math.pi`. */
  const Pi: real := 3.141592653589793

  datatype LengthUnit = Millimeter | Centimeter | Meter | Inch

  /** What `readExpression` returns: a plain number (an angle in radians) or
      a length with its unit. */
  datatype Value = Number(x: real) | Length(magnitude: real, unit: LengthUnit)

  /** The unit word `readExpression` reads each length unit from. */
  function UnitName(u: LengthUnit): (w: string)
    ensures w in {"mm", "cm", "m", "in"}
  {
    match u
    case Millimeter => "mm"
    case Centimeter => "cm"
    case Meter => "m"
    case Inch => "in"
  }

  /** The unit word after the number, as `readExpression` dispatches on it:
      degrees become radians, `rad`/`radian` give the number itself (or pi for
      `(PI)`), a length unit gives a length in that unit, any other word fails
      with `NotImplementedError`, and an unparsable number with `ValueError`. */
  function UnitValue(number: string, unit: string, parse: string -> Option<real>): (r: Result<Value>)
    ensures unit !in {"deg", "radian", "rad", "mm", "cm", "m", "in"} ==> r == Err("NotImplementedError")
    ensures r.Err? <==>
      unit !in {"deg", "radian", "rad", "mm", "cm", "m", "in"}
      || (parse(number).None? && !(unit in {"radian", "rad"} && number == "(PI)"))
    ensures unit == "deg" && r.Ok? ==> r.value == Number(parse(number).value * Pi / 180.0)
    ensures unit in {"radian", "rad"} && number == "(PI)" ==> r == Ok(Number(Pi))
    ensures unit in {"radian", "rad"} && number != "(PI)" && r.Ok? ==> r.value == Number(parse(number).value)
    ensures unit in {"mm", "cm", "m", "in"} && r.Ok? ==>
      r.value.Length? && UnitName(r.value.unit) == unit && r.value.magnitude == parse(number).value
  {
    if unit == "deg" then
      var x :- ParseFloat(number, parse);
      assert x / 360.0 * (2.0 * Pi) == x * Pi / 180.0;
      Ok(Number(x / 360.0 * (2.0 * Pi)))
    else if unit == "radian" || unit == "rad" then
      if number == "(PI)" then Ok(Number(Pi))
      else
        var x :- ParseFloat(number, parse);
        Ok(Number(x))
    else if unit in {"mm", "cm", "m", "in"} then
      var x :- ParseFloat(number, parse);
      Ok(Length(x, match unit case "mm" => Millimeter case "cm" => Centimeter case "m" => Meter case _ => Inch))
    else Err("NotImplementedError")
  }

  /** `float(s)`, failing with `ValueError` where `parse` has no value. */
  function ParseFloat(s: string, parse: string -> Option<real>): (r: Result<real>)
    ensures r.Ok? <==> parse(s).Some?
    ensures r.Ok? ==> r.value == parse(s).value
  {
    match parse(s)
    case Some(x) => Ok(x)
    case None => Err("ValueError: float")
  }

  /** `readExpression(expression)`: a leading `#` names a configuration value
      to read instead (and the value `"#"` reads the value of the empty key
      with a minus sign in front); the text is then split on spaces and the
      second piece picks the unit. */
  function ReadExpression(config: Dict<string, string>, expression: string, parse: string -> Option<real>): (r: Result<Value>)
    ensures |expression| == 0 ==> r.Err? && "IndexError: " <= r.msg
    ensures |expression| > 0 && expression[0] != '#' ==> r == ReadWords(expression, parse)
    ensures |expression| > 0 && expression[0] == '#' && expression[1..] !in config.m ==> r.Err? && "KeyError: " <= r.msg
  {
    if |expression| == 0 then Err("IndexError: string index out of range")
    else
      var e1 :- if expression[0] == '#' then
                  (if expression[1..] in config.m then Ok(config.m[expression[1..]]) else Err("KeyError: configuration"))
                else Ok(expression);
      var e2 :- if e1 == "#" then
                  (if "" in config.m then Ok("-" + config.m[""]) else Err("KeyError: configuration"))
                else Ok(e1);
      ReadWords(e2, parse)
  }

  /** `expression.split(' ')` and the dispatch on the second piece; text
      without a space has no second piece and fails with `IndexError`. */
  function ReadWords(e: string, parse: string -> Option<real>): (r: Result<Value>)
    ensures ' ' !in e ==> r.Err? && "IndexError: " <= r.msg
  {
    var parts := Split(e, ' ');
    if ' ' !in e then
      SplitFree(e, ' ');
      Err("IndexError: list index out of range")
    else if |parts| < 2 then Err("IndexError: list index out of range")
    else UnitValue(parts[0], parts[1], parse)
  }

  /** A plain expression `"<number> <unit>"` reads by its unit word. */
  lemma ReadTwoWords(config: Dict<string, string>, number: string, unit: string, parse: string -> Option<real>)
    requires |number| > 0 && number[0] != '#' && ' ' !in number && ' ' !in unit
    ensures ReadExpression(config, number + " " + unit, parse) == UnitValue(number, unit, parse)
  {
    var e := number + " " + unit;
    assert e == number + [' '] + unit;
    assert e[0] == number[0];
    SplitConcat(number, unit, ' ');
    SplitFree(unit, ' ');
  }

  /** An expression `"<x> deg"` reads as `x` degrees in radians. */
  lemma ReadDegrees(config: Dict<string, string>, number: string, parse: string -> Option<real>)
    requires |number| > 0 && number[0] != '#' && ' ' !in number && parse(number).Some?
    ensures ReadExpression(config, number + " deg", parse) == Ok(Number(parse(number).value * Pi / 180.0))
  {
    assert number + " deg" == number + " " + "deg";
    ReadTwoWords(config, number, "deg", parse);
    var x := parse(number).value;
    assert UnitValue(number, "deg", parse) == Ok(Number(x / 360.0 * (2.0 * Pi)));
    assert x / 360.0 * (2.0 * Pi) == x * Pi / 180.0;
  }

  /** `"(PI) rad"` reads as pi, whatever `parse` does. */
  lemma ReadPi(config: Dict<string, string>, parse: string -> Option<real>)
    ensures ReadExpression(config, "(PI) rad", parse) == Ok(Number(Pi))
  {
    assert "(PI)" + " " + "rad" == "(PI) rad";
    ReadTwoWords(config, "(PI)", "rad", parse);
  }

  /** A reference `#key` fails with `KeyError` when the configuration has
      no `key`; otherwise it reads the words of the configuration value of
      `key`, once (a value that itself starts with `#` is not looked up
      again), except that the value `"#"` reads the words of the value of
      the empty key with a minus sign in front. A value that is a plain
      expression reads as that expression. */
  lemma ReadReference(config: Dict<string, string>, key: string, parse: string -> Option<real>)
    ensures key !in config.m ==> ReadExpression(config, "#" + key, parse) == Err("KeyError: configuration")
    ensures key in config.m && config.m[key] != "#" ==> ReadExpression(config, "#" + key, parse) == ReadWords(config.m[key], parse)
    ensures key in config.m && config.m[key] == "#" ==>
      ReadExpression(config, "#" + key, parse) == if "" in config.m then ReadWords("-" + config.m[""], parse) else Err("KeyError: configuration")
    ensures key in config.m && |config.m[key]| > 0 && config.m[key][0] != '#' ==>
      ReadExpression(config, "#" + key, parse) == ReadExpression(config, config.m[key], parse)
  {
    assert ("#" + key)[0] == '#' && ("#" + key)[1..] == key;
  }

  /** An expression with no space has no unit and fails. */
  lemma ReadNoUnit(config: Dict<string, string>, expression: string, parse: string -> Option<real>)
    requires |expression| > 0 && expression[0] != '#' && expression != "#" && ' ' !in expression
    ensures ReadExpression(config, expression, parse).Err?
  {
    SplitFree(expression, ' ');
  }

  /** `param.readValue(data)`: quantities read their expression, a nullable
      quantity with a (non-empty) null value reads as `None`, and the other
      parameter classes (and an unknown parameter, stored as `None`) cannot
      be read. */
  function ReadValue(config: Dict<string, string>, param: Option<Parameter>, parse: string -> Option<real>): (r: Result<Option<Value>>)
    ensures param.None? || param.value.EnumParam? || param.value.BooleanParam? ==> r.Err?
    ensures param.Some? && param.value.NullableQuantityParam? && param.value.nullValue != "" ==> r == Ok(None)
    ensures param.Some? && (param.value.QuantityParam? || (param.value.NullableQuantityParam? && param.value.nullValue == "")) ==>
      && (r.Ok? <==> ReadExpression(config, param.value.expression, parse).Ok?)
      && (r.Ok? ==> r.value == Some(ReadExpression(config, param.value.expression, parse).value))
  {
    match param
    case None => Err("AttributeError: 'NoneType' object has no attribute 'readValue'")
    case Some(p) =>
      match p
      case QuantityParam(_, _, _, _, expression, _) =>
        var v :- ReadExpression(config, expression, parse);
        Ok(Some(v))
      case NullableQuantityParam(_, _, _, _, expression, _, _, nullValue) =>
        if nullValue != "" then Ok(None)
        else
          var v :- ReadExpression(config, expression, parse);
          Ok(Some(v))
      case _ => Err("NotImplementedError")
  }
}
