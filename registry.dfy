/**
 * The registries the engine keeps for its two domains: the route criterion types and
 * criteria it owns itself, the audio criterion names it forwards to the stream interface,
 * and the parameter vector shared by both. Each operation returns the new registry, or
 * the assertion that aborts the process.
 */
module Registry {
  import opened Wrappers
  import opened Words
  import opened CriterionTypeValues
  import opened MappingTable

  /** Name of the inclusive route criterion type and criterion that collect change events. */
  const StatesChanged := "StatesChanged"

  /** The two parameter-framework instances. */
  datatype Domain = Audio | Route

  /** A criterion type: inclusive (bit mask) or exclusive, and its (code, literal) pairs in order. */
  datatype CriterionType = CriterionType(inclusive: bool, values: seq<ValuePair>)

  /** A route criterion: the name of its type and its current value. */
  datatype Criterion = Criterion(typeName: string, value: Word)

  /** Value types a rogue parameter may carry. */
  datatype RogueKind = UnsignedInteger | Text | Double

  /*
   * Type names a rogue parameter may declare. The strings are defined in AudioHalConf.hpp,
   * which is not part of this model; only the fact that they differ matters here.
   */
  const UnsignedIntegerTypeTag := "unsigned int"
  const StringTypeTag := "string"
  const DoubleTypeTag := "double"

  /** A binding between an Android parameter key and either a rogue value or a criterion. */
  datatype Parameter =
    | RogueParameter(domain: Domain, kind: RogueKind, key: string, path: string,
                     defaultValue: string, mapping: seq<MappingPair>)
    | CriterionParameter(domain: Domain, key: string, name: string, typeName: string,
                         defaultValue: string, mapping: seq<MappingPair>)

  /** The configuration defects that abort the process (`AUDIOCOMMS_ASSERT`). */
  datatype Fatal =
    | DuplicateCriterionType(name: string)
    | UnknownCriterionType(name: string)
    | DuplicateCriterion(name: string)
    | InvalidValuePair
    | MissingParameterKey(name: string)

  /**
   * The state: `mRouteCriterionTypeMap`, `mRouteCriterionMap`, `mAudioCriterionMap`,
   * `mParameterVector` and `mAudioPfwHasChanged`, together with what the stream interface
   * stores for the audio instance (its criterion types and criterion values).
   */
  datatype Registry = Registry(
    routeTypes: map<string, CriterionType>,
    routeCriteria: map<string, Criterion>,
    audioTypes: map<string, CriterionType>,
    audioCriteria: map<string, string>,
    audioValues: map<string, Word>,
    parameters: seq<Parameter>,
    audioChanged: bool)

  /** The state once the constructor has created the StatesChanged type, before any file is read. */
  function Initial(): (r: Registry)
    ensures Aligned(r) && r.routeCriteria == map[] && r.parameters == []
    ensures r.routeTypes.Keys == {StatesChanged} && r.routeTypes[StatesChanged].inclusive
    ensures r.audioTypes == map[] && r.audioCriteria == map[] && r.audioValues == map[] && !r.audioChanged
  {
    Registry(map[StatesChanged := CriterionType(true, [])], map[], map[], map[], map[], [], false)
  }

  /** First position of a literal among the value pairs of a type. */
  function IndexOf(vs: seq<ValuePair>, literal: string): (r: Option<nat>)
    ensures r.Some? ==> r.value < |vs| && vs[r.value].literal == literal
    ensures r.Some? ==> forall j :: 0 <= j < r.value ==> vs[j].literal != literal
    ensures r.None? ==> forall j :: 0 <= j < |vs| ==> vs[j].literal != literal
  {
    if vs == [] then None
    else if vs[0].literal == literal then Some(0)
    else match IndexOf(vs[1..], literal)
      case None => None
      case Some(i) => Some(i + 1)
  }

  /** The numerical value a type gives to a literal, if it has one. */
  function CodeOf(t: CriterionType, literal: string): Option<Word>
  {
    match IndexOf(t.values, literal)
    case None => None
    case Some(i) => Some(t.values[i].code)
  }

  /** The initial value of a criterion declared with a default literal: its code, or 0. */
  function DefaultCode(t: CriterionType, literal: string): Word
  {
    match CodeOf(t, literal)
    case None => 0
    case Some(c) => c
  }

  /**
   * `addCriterionType`: a route type name must be new; the stream interface only reports
   * an audio type it already knows, which is then left as it is.
   */
  function AddCriterionType(r: Registry, d: Domain, name: string, inclusive: bool): (res: Result<Registry, Fatal>)
    ensures d == Route ==> (res.Ok? <==> name !in r.routeTypes)
    ensures d == Audio ==> res.Ok?
    ensures d == Route && res.Ok? ==>
      && res.value.routeTypes.Keys == r.routeTypes.Keys + {name}
      && res.value.routeTypes[name] == CriterionType(inclusive, [])
      && (forall n :: n in r.routeTypes ==> res.value.routeTypes[n] == r.routeTypes[n])
      && res.value.(routeTypes := r.routeTypes) == r
    ensures d == Audio && name in r.audioTypes ==> res == Ok(r)
    ensures d == Audio && name !in r.audioTypes ==>
      && res.value.audioTypes.Keys == r.audioTypes.Keys + {name}
      && res.value.audioTypes[name] == CriterionType(inclusive, [])
      && (forall n :: n in r.audioTypes ==> res.value.audioTypes[n] == r.audioTypes[n])
      && res.value.(audioTypes := r.audioTypes) == r
  {
    match d
    case Route =>
      if name in r.routeTypes then Err(DuplicateCriterionType(name))
      else Ok(r.(routeTypes := r.routeTypes[name := CriterionType(inclusive, [])]))
    case Audio =>
      if name in r.audioTypes then Ok(r)
      else Ok(r.(audioTypes := r.audioTypes[name := CriterionType(inclusive, [])]))
  }

  /** `addCriterionTypeValuePair`, for each pair in order: a route type must exist. */
  function AppendValues(r: Registry, d: Domain, typeName: string, vs: seq<ValuePair>): (res: Result<Registry, Fatal>)
    ensures d == Route ==> (res.Ok? <==> typeName in r.routeTypes)
    ensures d == Route && typeName !in r.routeTypes ==> res == Err(UnknownCriterionType(typeName))
    ensures d == Route && res.Ok? ==>
      && res.value.routeTypes.Keys == r.routeTypes.Keys
      && res.value.routeTypes[typeName].inclusive == r.routeTypes[typeName].inclusive
      && res.value.routeTypes[typeName].values == r.routeTypes[typeName].values + vs
      && (forall n :: n in r.routeTypes && n != typeName ==> res.value.routeTypes[n] == r.routeTypes[n])
      && res.value.(routeTypes := r.routeTypes) == r
    ensures d == Audio ==> res.Ok?
    ensures d == Audio && typeName !in r.audioTypes ==> res == Ok(r)
    ensures d == Audio && typeName in r.audioTypes ==>
      && res.value.audioTypes.Keys == r.audioTypes.Keys
      && res.value.audioTypes[typeName].inclusive == r.audioTypes[typeName].inclusive
      && res.value.audioTypes[typeName].values == r.audioTypes[typeName].values + vs
      && (forall n :: n in r.audioTypes && n != typeName ==> res.value.audioTypes[n] == r.audioTypes[n])
      && res.value.(audioTypes := r.audioTypes) == r
  {
    match d
    case Route =>
      if typeName !in r.routeTypes then Err(UnknownCriterionType(typeName))
      else
        var t := r.routeTypes[typeName];
        Ok(r.(routeTypes := r.routeTypes[typeName := t.(values := t.values + vs)]))
    case Audio =>
      if typeName !in r.audioTypes then Ok(r)
      else
        var t := r.audioTypes[typeName];
        Ok(r.(audioTypes := r.audioTypes[typeName := t.(values := t.values + vs)]))
  }

  /** Registering no pair changes nothing, once a route type exists. */
  lemma AppendNoValues(r: Registry, d: Domain, typeName: string)
    requires d == Route ==> typeName in r.routeTypes
    ensures AppendValues(r, d, typeName, []) == Ok(r)
  {
    match d
    case Route =>
      var t := r.routeTypes[typeName];
      assert t.values + [] == t.values;
      assert r.routeTypes[typeName := t] == r.routeTypes;
    case Audio =>
      if typeName in r.audioTypes {
        var t := r.audioTypes[typeName];
        assert t.values + [] == t.values;
        assert r.audioTypes[typeName := t] == r.audioTypes;
      }
  }

  /** Registering pairs one at a time is registering them together. */
  lemma AppendValuesSnoc(r: Registry, d: Domain, typeName: string, vs: seq<ValuePair>, p: ValuePair)
    requires AppendValues(r, d, typeName, vs).Ok?
    ensures AppendValues(r, d, typeName, vs + [p]) == AppendValues(AppendValues(r, d, typeName, vs).value, d, typeName, [p])
  {
    match d
    case Route =>
      var t := r.routeTypes[typeName];
      var t1 := t.(values := t.values + vs);
      assert t1.(values := t1.values + [p]) == t.(values := t.values + (vs + [p]));
      assert r.routeTypes[typeName := t1][typeName := t1.(values := t1.values + [p])]
          == r.routeTypes[typeName := t.(values := t.values + (vs + [p]))];
    case Audio =>
      if typeName in r.audioTypes {
        var t := r.audioTypes[typeName];
        var t1 := t.(values := t.values + vs);
        assert t1.(values := t1.values + [p]) == t.(values := t.values + (vs + [p]));
        assert r.audioTypes[typeName := t1][typeName := t1.(values := t1.values + [p])]
            == r.audioTypes[typeName := t.(values := t.values + (vs + [p]))];
      }
  }

  /**
   * `addRouteCriterion`: the name must be new; it becomes the next value of the
   * StatesChanged type, with the bit numbered by how many route criteria exist.
   */
  function AddRouteCriterion(r: Registry, name: string, c: Criterion): (res: Result<Registry, Fatal>)
    ensures res.Ok? <==> name !in r.routeCriteria && StatesChanged in r.routeTypes
    ensures res.Ok? ==> res.value.routeCriteria == r.routeCriteria[name := c]
    ensures res.Ok? ==> StatesChanged in res.value.routeTypes && res.value.routeTypes[StatesChanged].values
                        == r.routeTypes[StatesChanged].values + [ValuePair(Bit(|r.routeCriteria|), name)]
    ensures res.Ok? ==> res.value.parameters == r.parameters && res.value.audioCriteria == r.audioCriteria
    ensures res.Ok? ==>
      && res.value.routeTypes.Keys == r.routeTypes.Keys
      && res.value.routeTypes[StatesChanged].inclusive == r.routeTypes[StatesChanged].inclusive
      && (forall n :: n in r.routeTypes && n != StatesChanged ==> res.value.routeTypes[n] == r.routeTypes[n])
      && res.value.(routeTypes := r.routeTypes, routeCriteria := r.routeCriteria) == r
  {
    if name in r.routeCriteria then Err(DuplicateCriterion(name))
    else if StatesChanged !in r.routeTypes then Err(UnknownCriterionType(StatesChanged))
    else
      var sc := r.routeTypes[StatesChanged];
      Ok(r.(routeTypes := r.routeTypes[StatesChanged := sc.(values := sc.values + [ValuePair(Bit(|r.routeCriteria|), name)])],
            routeCriteria := r.routeCriteria[name := c]))
  }

  /**
   * `addCriterion`: an audio name must be new to `mAudioCriterionMap` and is declared to
   * the stream interface with its default; a route name must be new and its type known.
   */
  function AddCriterion(r: Registry, d: Domain, name: string, typeName: string, defaultLiteral: string): (res: Result<Registry, Fatal>)
    ensures d == Route ==> (res.Ok? <==> name !in r.routeCriteria && typeName in r.routeTypes && StatesChanged in r.routeTypes)
    ensures d == Route && name in r.routeCriteria ==> res == Err(DuplicateCriterion(name))
    ensures d == Route && name !in r.routeCriteria && typeName !in r.routeTypes ==> res == Err(UnknownCriterionType(typeName))
    ensures d == Audio ==> (res.Ok? <==> name !in r.audioCriteria)
    ensures d == Audio && name in r.audioCriteria ==> res == Err(DuplicateCriterion(name))
  {
    match d
    case Audio =>
      if name in r.audioCriteria then Err(DuplicateCriterion(name))
      else
        var code := if typeName in r.audioTypes then DefaultCode(r.audioTypes[typeName], defaultLiteral) else 0;
        Ok(r.(audioCriteria := r.audioCriteria[name := typeName], audioValues := r.audioValues[name := code]))
    case Route =>
      if name in r.routeCriteria then Err(DuplicateCriterion(name))
      else if typeName !in r.routeTypes then Err(UnknownCriterionType(typeName))
      else AddRouteCriterion(r, name, Criterion(typeName, DefaultCode(r.routeTypes[typeName], defaultLiteral)))
  }

  /**
   * `addParameter<pfw, ParamCriterion>`: the parameter is appended; a route one needs a
   * known type and also adds its criterion, an audio one only joins the vector.
   */
  function AddCriterionParameter(r: Registry, d: Domain, typeName: string, key: string, name: string,
                                 defaultLiteral: string, mapping: seq<MappingPair>): (res: Result<Registry, Fatal>)
    ensures d == Route ==> (res.Ok? <==> typeName in r.routeTypes && name !in r.routeCriteria && StatesChanged in r.routeTypes)
    ensures d == Route && typeName !in r.routeTypes ==> res == Err(UnknownCriterionType(typeName))
    ensures d == Route && typeName in r.routeTypes && name in r.routeCriteria ==> res == Err(DuplicateCriterion(name))
    ensures d == Audio ==> res.Ok?
  {
    var p := CriterionParameter(d, key, name, typeName, defaultLiteral, mapping);
    match d
    case Audio => Ok(r.(parameters := r.parameters + [p]))
    case Route =>
      if typeName !in r.routeTypes then Err(UnknownCriterionType(typeName))
      else AddRouteCriterion(r.(parameters := r.parameters + [p]), name,
                             Criterion(typeName, DefaultCode(r.routeTypes[typeName], defaultLiteral)))
  }

  /** A criterion added without a key is new in its instance and adds no parameter. */
  lemma AddCriterionAdds(r: Registry, d: Domain, name: string, typeName: string, defaultLiteral: string)
    requires AddCriterion(r, d, name, typeName, defaultLiteral).Ok?
    ensures var r' := AddCriterion(r, d, name, typeName, defaultLiteral).value;
      && r'.parameters == r.parameters
      && (d == Route ==> name !in r.routeCriteria && r'.routeCriteria.Keys == r.routeCriteria.Keys + {name})
      && (d == Route ==>
            r'.routeCriteria == r.routeCriteria[name := Criterion(typeName, DefaultCode(r.routeTypes[typeName], defaultLiteral))])
      && (d == Route ==>
            && StatesChanged in r.routeTypes
            && r'.routeTypes == r.routeTypes[StatesChanged := r.routeTypes[StatesChanged].(values :=
                 r.routeTypes[StatesChanged].values + [ValuePair(Bit(|r.routeCriteria|), name)])]
            && r'.(routeTypes := r.routeTypes, routeCriteria := r.routeCriteria) == r)
      && (d == Audio ==> name !in r.audioCriteria && r'.audioCriteria == r.audioCriteria[name := typeName])
      && (d == Audio ==>
            && r'.audioValues == r.audioValues[name := if typeName in r.audioTypes then DefaultCode(r.audioTypes[typeName], defaultLiteral) else 0]
            && r'.(audioCriteria := r.audioCriteria, audioValues := r.audioValues) == r)
  {
    if d == Route {
      var r' := AddCriterion(r, d, name, typeName, defaultLiteral).value;
      assert r'.routeCriteria == r.routeCriteria[name := Criterion(typeName, DefaultCode(r.routeTypes[typeName], defaultLiteral))];
    }
  }

  /** A criterion parameter is appended to the parameters; a route one also names a new criterion. */
  lemma AddCriterionParameterAdds(r: Registry, d: Domain, typeName: string, key: string, name: string,
                                  defaultLiteral: string, mapping: seq<MappingPair>)
    requires AddCriterionParameter(r, d, typeName, key, name, defaultLiteral, mapping).Ok?
    ensures var r' := AddCriterionParameter(r, d, typeName, key, name, defaultLiteral, mapping).value;
      && r'.parameters == r.parameters + [CriterionParameter(d, key, name, typeName, defaultLiteral, mapping)]
      && (d == Route ==> name !in r.routeCriteria && r'.routeCriteria.Keys == r.routeCriteria.Keys + {name})
      && (d == Route ==>
            r'.routeCriteria == r.routeCriteria[name := Criterion(typeName, DefaultCode(r.routeTypes[typeName], defaultLiteral))])
      && (d == Route ==>
            && StatesChanged in r.routeTypes
            && r'.routeTypes == r.routeTypes[StatesChanged := r.routeTypes[StatesChanged].(values :=
                 r.routeTypes[StatesChanged].values + [ValuePair(Bit(|r.routeCriteria|), name)])]
            && r'.(routeTypes := r.routeTypes, routeCriteria := r.routeCriteria, parameters := r.parameters) == r)
      && (d == Audio ==> r'.(parameters := r.parameters) == r)
      && r'.audioCriteria == r.audioCriteria
  {
    if d == Route {
      var p := CriterionParameter(d, key, name, typeName, defaultLiteral, mapping);
      var r1 := r.(parameters := r.parameters + [p]);
      var c := Criterion(typeName, DefaultCode(r.routeTypes[typeName], defaultLiteral));
      assert AddRouteCriterion(r1, name, c).value.routeCriteria == r.routeCriteria[name := c];
    }
  }

  /** The value type a rogue parameter declares, when it is one of the supported three. */
  function KindOf(typeName: string): (k: Option<RogueKind>)
    ensures k.Some? <==> typeName in {UnsignedIntegerTypeTag, StringTypeTag, DoubleTypeTag}
  {
    if typeName == UnsignedIntegerTypeTag then Some(UnsignedInteger)
    else if typeName == StringTypeTag then Some(Text)
    else if typeName == DoubleTypeTag then Some(Double)
    else None
  }

  /** `addParameter<pfw, ParamRogue>`: an unsupported type is logged and the parameter dropped. */
  function AddRogueParameter(r: Registry, d: Domain, typeName: string, key: string, path: string,
                             defaultValue: string, mapping: seq<MappingPair>): Registry
  {
    match KindOf(typeName)
    case None => r
    case Some(kind) => r.(parameters := r.parameters + [RogueParameter(d, kind, key, path, defaultValue, mapping)])
  }

  /**
   * While the configuration is read, the StatesChanged type exists, is inclusive, and holds
   * exactly one value per route criterion, the j-th one added with code `1 << j`.
   */
  predicate Aligned(r: Registry)
  {
    && StatesChanged in r.routeTypes
    && r.routeTypes[StatesChanged].inclusive
    && OneBitPerName(r.routeTypes[StatesChanged].values, r.routeCriteria.Keys)
  }

  /** The literals of a list of value pairs. */
  function Literals(vs: seq<ValuePair>): (ls: set<string>)
    ensures forall j :: 0 <= j < |vs| ==> vs[j].literal in ls
  {
    set j | 0 <= j < |vs| :: vs[j].literal
  }

  /** The j-th pair has code `1 << j`, and the literals are exactly the given names, once each. */
  predicate OneBitPerName(vs: seq<ValuePair>, names: set<string>)
  {
    && |vs| == |names|
    && (forall j :: 0 <= j < |vs| ==> vs[j].code == Bit(j))
    && Literals(vs) == names
    && (forall i, j :: 0 <= i < j < |vs| ==> vs[i].literal != vs[j].literal)
  }

  lemma OneBitPerNameStep(vs: seq<ValuePair>, names: set<string>, name: string)
    requires OneBitPerName(vs, names) && name !in names
    ensures OneBitPerName(vs + [ValuePair(Bit(|vs|), name)], names + {name})
  {
    var vs' := vs + [ValuePair(Bit(|vs|), name)];
    assert |names + {name}| == |names| + 1;
    forall j | 0 <= j < |vs'| ensures vs'[j].code == Bit(j) && vs'[j].literal in names + {name} {
      if j < |vs| { assert vs'[j] == vs[j]; }
    }
  }

  /** Declaring a route type called StatesChanged always hits the duplicate assertion. */
  lemma StatesChangedTypeIsReserved(r: Registry, inclusive: bool)
    requires Aligned(r)
    ensures AddCriterionType(r, Route, StatesChanged, inclusive) == Err(DuplicateCriterionType(StatesChanged))
  {
  }

  /**
   * Adding a route criterion keeps the alignment: the route map grows by exactly one
   * and the new name gets the next bit.
   */
  lemma AddRouteCriterionAligned(r: Registry, name: string, c: Criterion)
    requires Aligned(r) && name !in r.routeCriteria
    ensures AddRouteCriterion(r, name, c).Ok?
    ensures Aligned(AddRouteCriterion(r, name, c).value)
    ensures |AddRouteCriterion(r, name, c).value.routeCriteria| == |r.routeCriteria| + 1
  {
    var r' := AddRouteCriterion(r, name, c).value;
    var keys := r.routeCriteria.Keys;
    assert r'.routeCriteria.Keys == keys + {name};
    AlignedStep(r.routeTypes[StatesChanged], keys, r'.routeTypes[StatesChanged], r'.routeCriteria.Keys, name);
  }

  lemma AlignedStep(sc: CriterionType, keys: set<string>, sc': CriterionType, keys': set<string>, name: string)
    requires sc.inclusive && OneBitPerName(sc.values, keys) && name !in keys
    requires sc' == sc.(values := sc.values + [ValuePair(Bit(|sc.values|), name)])
    requires keys' == keys + {name}
    ensures sc'.inclusive && OneBitPerName(sc'.values, keys') && |keys'| == |keys| + 1
  {
    OneBitPerNameStep(sc.values, keys, name);
  }

  /** Every loading operation other than a new route criterion keeps the alignment. */
  lemma AddCriterionTypeAligned(r: Registry, d: Domain, name: string, inclusive: bool)
    requires Aligned(r) && AddCriterionType(r, d, name, inclusive).Ok?
    ensures Aligned(AddCriterionType(r, d, name, inclusive).value)
  {
  }

  lemma AppendValuesAligned(r: Registry, d: Domain, typeName: string, vs: seq<ValuePair>)
    requires Aligned(r) && (d == Audio || typeName != StatesChanged)
    requires AppendValues(r, d, typeName, vs).Ok?
    ensures Aligned(AppendValues(r, d, typeName, vs).value)
  {
  }

  lemma AddCriterionAligned(r: Registry, d: Domain, name: string, typeName: string, defaultLiteral: string)
    requires Aligned(r) && AddCriterion(r, d, name, typeName, defaultLiteral).Ok?
    ensures Aligned(AddCriterion(r, d, name, typeName, defaultLiteral).value)
  {
    if d == Route {
      AddRouteCriterionAligned(r, name, Criterion(typeName, DefaultCode(r.routeTypes[typeName], defaultLiteral)));
    }
  }

  lemma AddCriterionParameterAligned(r: Registry, d: Domain, typeName: string, key: string, name: string,
                                     defaultLiteral: string, mapping: seq<MappingPair>)
    requires Aligned(r) && AddCriterionParameter(r, d, typeName, key, name, defaultLiteral, mapping).Ok?
    ensures Aligned(AddCriterionParameter(r, d, typeName, key, name, defaultLiteral, mapping).value)
  {
    if d == Route {
      var p := CriterionParameter(d, key, name, typeName, defaultLiteral, mapping);
      AddRouteCriterionAligned(r.(parameters := r.parameters + [p]), name,
                               Criterion(typeName, DefaultCode(r.routeTypes[typeName], defaultLiteral)));
    }
  }

  /**
   * The codes of the StatesChanged type are single bits: the j-th value, for the first 32
   * route criteria, has bit j and no other, so no two criteria share a bit.
   */
  lemma AlignedBitsSingle(r: Registry)
    requires Aligned(r)
    ensures var vs := r.routeTypes[StatesChanged].values;
      forall j, k :: 0 <= j < |vs| && j < 32 ==> (HasBit(vs[j].code, k) <==> k == j)
  {
    var vs := r.routeTypes[StatesChanged].values;
    forall j, k | 0 <= j < |vs| && j < 32 ensures HasBit(vs[j].code, k) <==> k == j {
      BitIsSingle(j, k);
    }
  }
}
