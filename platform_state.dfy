/**
 * The engine object `AudioPlatformState`: its maps, parameter vector and audio flag are
 * fields that its methods update in place, and every method is proved to leave the state
 * its specification function in the other modules describes.
 */
module PlatformState {
  import opened Wrappers
  import opened Words
  import opened Tokens
  import opened CriterionTypeValues
  import opened MappingTable
  import opened ConfigTree
  import opened Registry
  import Reg = Registry
  import opened PlatformEvents
  import opened Sync
  import opened Loader

  class AudioPlatformState {
    var routeTypes: map<string, CriterionType>     // mRouteCriterionTypeMap
    var routeCriteria: map<string, Criterion>      // mRouteCriterionMap
    var audioTypes: map<string, CriterionType>     // criterion types held by the stream interface
    var audioCriteria: map<string, string>         // mAudioCriterionMap
    var audioValues: map<string, Word>             // criterion values held by the stream interface
    var parameters: seq<Parameter>                 // mParameterVector
    var audioChanged: bool                         // mAudioPfwHasChanged
    var calls: seq<Call>                           // calls made on the lock and the collaborators
    const hex: HexParser
    const dec: DecimalParser

    /** The fields as one registry value. */
    function Model(): Registry
      reads this
    {
      Registry(routeTypes, routeCriteria, audioTypes, audioCriteria, audioValues, parameters, audioChanged)
    }

    /** The part of the constructor that runs before any file is read: the StatesChanged type. */
    constructor Empty(hex: HexParser, dec: DecimalParser)
      ensures Model() == Initial() && calls == []
      ensures this.hex == hex && this.dec == dec
    {
      routeTypes := map[StatesChanged := CriterionType(true, [])];
      routeCriteria := map[];
      audioTypes := map[];
      audioCriteria := map[];
      audioValues := map[];
      parameters := [];
      audioChanged := false;
      calls := [];
      this.hex := hex;
      this.dec := dec;
    }

    /**
     * The constructor: the vendor file, else the system file, then the StatesChanged
     * criterion. None stands for a configuration that aborts the process.
     */
    static method Create(vendor: Option<Node>, system: Option<Node>, hex: HexParser, dec: DecimalParser)
      returns (res: Option<AudioPlatformState>)
      ensures res.Some? <==> Construct(vendor, system, hex, dec).Ok?
      ensures res.Some? ==> fresh(res.value) && res.value.Model() == Construct(vendor, system, hex, dec).value
      ensures res.Some? ==> res.value.calls == [] && res.value.hex == hex && res.value.dec == dec
    {
      var s := new AudioPlatformState.Empty(hex, dec);
      var found, ok := s.LoadAudioHalConfig(vendor);
      if !found {
        found, ok := s.LoadAudioHalConfig(system);
      }
      if !found {
        ok := true;
      }
      if !ok {
        return None;
      }
      s.routeCriteria := s.routeCriteria[StatesChanged := Criterion(StatesChanged, 0)];
      return Some(s);
    }

    /** `addCriterionType<pfw>`. */
    method AddCriterionType(d: Domain, name: string, inclusive: bool) returns (ok: bool)
      modifies this
      ensures ok <==> Reg.AddCriterionType(old(Model()), d, name, inclusive).Ok?
      ensures ok ==> Model() == Reg.AddCriterionType(old(Model()), d, name, inclusive).value
      ensures calls == old(calls)
    {
      match d
      case Route =>
        if name in routeTypes {
          return false;
        }
        routeTypes := routeTypes[name := CriterionType(inclusive, [])];
        return true;
      case Audio =>
        if name !in audioTypes {
          audioTypes := audioTypes[name := CriterionType(inclusive, [])];
        }
        return true;
    }

    /** `addCriterionTypeValuePair<pfw>`. */
    method AddCriterionTypeValuePair(d: Domain, typeName: string, code: Word, literal: string) returns (ok: bool)
      modifies this
      ensures ok <==> AppendValues(old(Model()), d, typeName, [ValuePair(code, literal)]).Ok?
      ensures ok ==> Model() == AppendValues(old(Model()), d, typeName, [ValuePair(code, literal)]).value
      ensures calls == old(calls)
    {
      match d
      case Route =>
        if typeName !in routeTypes {
          return false;
        }
        var t := routeTypes[typeName];
        routeTypes := routeTypes[typeName := t.(values := t.values + [ValuePair(code, literal)])];
        return true;
      case Audio =>
        if typeName in audioTypes {
          var t := audioTypes[typeName];
          audioTypes := audioTypes[typeName := t.(values := t.values + [ValuePair(code, literal)])];
        }
        return true;
    }

    /**
     * The loop over the value list of one criterion type, with the running `index`: a
     * `code:literal` entry registers its explicit code and makes it the new index, a bare
     * literal registers `1 << index` (inclusive) or `index` and advances the index.
     */
    method LoadValueList(d: Domain, typeName: string, values: string, inclusive: bool) returns (ok: bool)
      requires d == Route ==> typeName in routeTypes
      modifies this
      ensures ok <==> DecodeValueList(values, inclusive, hex, dec).ok
      ensures ok ==> Model() == AppendValues(old(Model()), d, typeName, DecodeValueList(values, inclusive, hex, dec).pairs).value
      ensures calls == old(calls)
    {
      var tokens := Split(values, ',');
      var index: Word := 0;
      ghost var r0 := Model();
      ghost var pairs: seq<ValuePair> := [];
      AppendNoValues(r0, d, typeName);
      var i := 0;
      while i < |tokens|
        invariant 0 <= i <= |tokens|
        invariant Decode(tokens[..i], inclusive, hex, dec) == Decoder(index, pairs, true)
        invariant d == Route ==> typeName in routeTypes
        invariant AppendValues(r0, d, typeName, pairs).Ok? && Model() == AppendValues(r0, d, typeName, pairs).value
        invariant calls == old(calls)
      {
        var token := tokens[i];
        assert tokens[..i + 1] == tokens[..i] + [token];
        DecodeSnoc(tokens[..i], token, inclusive, hex, dec);
        var p: ValuePair;
        if ':' in token {
          var cp := ColonPair(token);
          if cp.None? {
            RunOkIff(Decoder(0, [], true), tokens, inclusive, hex, dec);
            return false;
          }
          var first := cp.value.0;
          var second := cp.value.1;
          if IsHexPrefixed(first) {
            var converted := hex(first);
            if converted.Some? {
              index := converted.value;
            }
          } else {
            var signedIndex: Int32 := 0;
            var converted := dec(first);
            if converted.Some? {
              signedIndex := converted.value;
            }
            index := FromInt32(signedIndex);
          }
          p := ValuePair(index, second);
        } else {
          var pfwIndex := if inclusive then Bit(index) else index;
          p := ValuePair(pfwIndex, token);
          index := (index + 1) % 0x1_0000_0000;
        }
        AppendValuesSnoc(r0, d, typeName, pairs, p);
        ok := AddCriterionTypeValuePair(d, typeName, p.code, p.literal);
        pairs := pairs + [p];
        i := i + 1;
      }
      assert tokens[..i] == tokens;
      return true;
    }

    /** `loadCriterionType` for one type node: declare the type, then register its values. */
    method LoadTypeNode(node: Node, d: Domain, inclusive: bool) returns (ok: bool)
      modifies this
      ensures ok <==> LoadEntry(old(Model()), d, TypeEntry(node, inclusive), hex, dec).Ok?
      ensures ok ==> Model() == LoadEntry(old(Model()), d, TypeEntry(node, inclusive), hex, dec).value
      ensures calls == old(calls)
    {
      ok := AddCriterionType(d, node.name, inclusive);
      if !ok {
        return;
      }
      ok := LoadValueList(d, node.name, node.value, inclusive);
    }

    /**
     * `loadInclusiveCriterionType` / `loadExclusiveCriterionType` and the loop of
     * `loadCriterionType` over the children of the type section.
     */
    method LoadCriterionTypes(section: Node, d: Domain, inclusive: bool) returns (ok: bool)
      modifies this
      ensures var tag := if inclusive then InclusiveCriterionTypeTag else ExclusiveCriterionTypeTag;
        var res := LoadEntries(old(Model()), d, TypeEntries(ChildrenOf(section, tag), inclusive), hex, dec);
        (ok <==> res.Ok?) && (ok ==> Model() == res.value)
      ensures calls == old(calls)
    {
      var tag := if inclusive then InclusiveCriterionTypeTag else ExclusiveCriterionTypeTag;
      ok := LoadEntryList(TypeEntries(ChildrenOf(section, tag), inclusive), d);
    }

    /** `addRouteCriterion`: the new criterion gets the next bit of the StatesChanged type. */
    method AddRouteCriterion(name: string, c: Criterion) returns (ok: bool)
      modifies this
      ensures ok <==> Reg.AddRouteCriterion(old(Model()), name, c).Ok?
      ensures ok ==> Model() == Reg.AddRouteCriterion(old(Model()), name, c).value
      ensures calls == old(calls)
    {
      if name in routeCriteria || StatesChanged !in routeTypes {
        return false;
      }
      var sc := routeTypes[StatesChanged];
      routeTypes := routeTypes[StatesChanged := sc.(values := sc.values + [ValuePair(Bit(|routeCriteria|), name)])];
      routeCriteria := routeCriteria[name := c];
      return true;
    }

    /** `addCriterion<pfw>`. */
    method AddCriterion(d: Domain, name: string, typeName: string, defaultLiteral: string) returns (ok: bool)
      modifies this
      ensures ok <==> Reg.AddCriterion(old(Model()), d, name, typeName, defaultLiteral).Ok?
      ensures ok ==> Model() == Reg.AddCriterion(old(Model()), d, name, typeName, defaultLiteral).value
      ensures calls == old(calls)
    {
      match d
      case Audio =>
        if name in audioCriteria {
          return false;
        }
        var code := if typeName in audioTypes then DefaultCode(audioTypes[typeName], defaultLiteral) else 0;
        audioValues := audioValues[name := code];
        audioCriteria := audioCriteria[name := typeName];
        return true;
      case Route =>
        if name in routeCriteria || typeName !in routeTypes {
          return false;
        }
        ok := AddRouteCriterion(name, Criterion(typeName, DefaultCode(routeTypes[typeName], defaultLiteral)));
    }

    /** `addParameter<pfw, ParamCriterion>`. */
    method AddCriterionParameter(d: Domain, typeName: string, key: string, name: string,
                                 defaultLiteral: string, mapping: seq<MappingPair>) returns (ok: bool)
      modifies this
      ensures ok <==> Reg.AddCriterionParameter(old(Model()), d, typeName, key, name, defaultLiteral, mapping).Ok?
      ensures ok ==> Model() == Reg.AddCriterionParameter(old(Model()), d, typeName, key, name, defaultLiteral, mapping).value
      ensures calls == old(calls)
    {
      var p := CriterionParameter(d, key, name, typeName, defaultLiteral, mapping);
      match d
      case Audio =>
        parameters := parameters + [p];
        return true;
      case Route =>
        if typeName !in routeTypes {
          return false;
        }
        var c := Criterion(typeName, DefaultCode(routeTypes[typeName], defaultLiteral));
        parameters := parameters + [p];
        ok := AddRouteCriterion(name, c);
    }

    /** `addParameter<pfw, ParamRogue>`: a parameter of an unsupported type is dropped. */
    method AddRogueParameter(d: Domain, typeName: string, key: string, path: string,
                             defaultValue: string, mapping: seq<MappingPair>)
      modifies this
      ensures Model() == Reg.AddRogueParameter(old(Model()), d, typeName, key, path, defaultValue, mapping)
      ensures calls == old(calls)
    {
      var kind := KindOf(typeName);
      if kind.None? {
        return;
      }
      parameters := parameters + [RogueParameter(d, kind.value, key, path, defaultValue, mapping)];
    }

    /** `loadCriterion`. */
    method LoadCriterion(root: Node, d: Domain) returns (ok: bool)
      modifies this
      ensures ok <==> LoadEntry(old(Model()), d, CriterionEntry(root), hex, dec).Ok?
      ensures ok ==> Model() == LoadEntry(old(Model()), d, CriterionEntry(root), hex, dec).value
      ensures calls == old(calls)
    {
      var fields := ParseChildren(root);
      if fields.None? {
        return false;
      }
      var f := fields.value;
      if f.key != "" {
        ok := AddCriterionParameter(d, f.typeName, f.key, root.name, f.defaultValue, f.mapping);
      } else {
        ok := AddCriterion(d, root.name, f.typeName, f.defaultValue);
      }
    }

    /** `loadCriteria`: every child of the criterion section, in order. */
    method LoadCriteria(section: Node, d: Domain) returns (ok: bool)
      modifies this
      ensures var res := LoadEntries(old(Model()), d, CriterionEntries(ChildrenOf(section, CriterionTag)), hex, dec);
        (ok <==> res.Ok?) && (ok ==> Model() == res.value)
      ensures calls == old(calls)
    {
      ok := LoadEntryList(CriterionEntries(ChildrenOf(section, CriterionTag)), d);
    }

    /** `loadRogueParameterType`. */
    method LoadRogueParameterType(root: Node, d: Domain) returns (ok: bool)
      modifies this
      ensures ok <==> LoadEntry(old(Model()), d, RogueEntry(root), hex, dec).Ok?
      ensures ok ==> Model() == LoadEntry(old(Model()), d, RogueEntry(root), hex, dec).value
      ensures calls == old(calls)
    {
      var fields := ParseChildren(root);
      if fields.None? {
        return false;
      }
      var f := fields.value;
      if f.key == "" {
        return false;
      }
      AddRogueParameter(d, f.typeName, f.key, f.path, f.defaultValue, f.mapping);
      return true;
    }

    /** `loadRogueParameterTypeList`: every child of the rogue-parameter section, in order. */
    method LoadRogueParameterTypeList(section: Node, d: Domain) returns (ok: bool)
      modifies this
      ensures var res := LoadEntries(old(Model()), d, RogueEntries(ChildrenOf(section, RogueParameterTag)), hex, dec);
        (ok <==> res.Ok?) && (ok ==> Model() == res.value)
      ensures calls == old(calls)
    {
      ok := LoadEntryList(RogueEntries(ChildrenOf(section, RogueParameterTag)), d);
    }

    /**
     * One element of a section, handed to the per-element load of its kind. The engine has
     * no such step: each section loop calls its own per-element load directly.
     */
    method LoadOne(e: Entry, d: Domain) returns (ok: bool)
      modifies this
      ensures ok <==> LoadEntry(old(Model()), d, e, hex, dec).Ok?
      ensures ok ==> Model() == LoadEntry(old(Model()), d, e, hex, dec).value
      ensures calls == old(calls)
    {
      match e
      case TypeEntry(node, inclusive) => ok := LoadTypeNode(node, d, inclusive);
      case CriterionEntry(node) => ok := LoadCriterion(node, d);
      case RogueEntry(node) => ok := LoadRogueParameterType(node, d);
    }

    /** The loop shared by the section loads: each element in order, stopping at the first failure. */
    method LoadEntryList(es: seq<Entry>, d: Domain) returns (ok: bool)
      modifies this
      ensures var res := LoadEntries(old(Model()), d, es, hex, dec);
        (ok <==> res.Ok?) && (ok ==> Model() == res.value)
      ensures calls == old(calls)
    {
      ghost var r0 := Model();
      var i := 0;
      while i < |es|
        invariant 0 <= i <= |es|
        invariant LoadEntries(r0, d, es[..i], hex, dec) == Ok(Model())
        invariant calls == old(calls)
      {
        LoadEntriesStep(r0, d, es, i, Model(), hex, dec);
        ok := LoadOne(es[i], d);
        if !ok {
          FatalPrefix(r0, d, es, i + 1, hex, dec);
          return;
        }
        i := i + 1;
      }
      assert es[..i] == es;
      return true;
    }

    /** `loadConfigFor`: the four loads of one section, in order. */
    method LoadConfigFor(section: Node, d: Domain) returns (ok: bool)
      modifies this
      ensures var res := LoadEntries(old(Model()), d, SectionEntries(section), hex, dec);
        (ok <==> res.Ok?) && (ok ==> Model() == res.value)
      ensures calls == old(calls)
    {
      SectionInOrder(Model(), d, section, hex, dec);
      ok := LoadCriterionTypes(section, d, true);
      if !ok {
        return;
      }
      ok := LoadCriterionTypes(section, d, false);
      if !ok {
        return;
      }
      ok := LoadCriteria(section, d);
      if !ok {
        return;
      }
      ok := LoadRogueParameterTypeList(section, d);
    }

    /** `loadConfig<pfw>`: the common section, then the instance's own section. */
    method LoadConfig(root: Node, d: Domain) returns (ok: bool)
      modifies this
      ensures var res := Loader.LoadConfig(old(Model()), d, root, hex, dec);
        (ok <==> res.Ok?) && (ok ==> Model() == res.value)
      ensures calls == old(calls)
    {
      CommonBeforeInstance(Model(), d, root, hex, dec);
      var common := Find(root, CommonConfTag);
      if common.Some? {
        ok := LoadConfigFor(common.value, d);
        if !ok {
          return;
        }
      }
      var own := Find(root, InstanceTag(d));
      if own.Some? {
        ok := LoadConfigFor(own.value, d);
        if !ok {
          return;
        }
      }
      return true;
    }

    /** `loadAudioHalConfig`: `found` is false for a file that cannot be read (`-ENODEV`). */
    method LoadAudioHalConfig(file: Option<Node>) returns (found: bool, ok: bool)
      modifies this
      ensures found <==> file.Some?
      ensures !found ==> Model() == old(Model())
      ensures found ==> (ok <==> Loader.LoadAudioHalConfig(old(Model()), file, hex, dec).value.Ok?)
      ensures found && ok ==> Model() == Loader.LoadAudioHalConfig(old(Model()), file, hex, dec).value.value
      ensures calls == old(calls)
    {
      if file.None? {
        return false, false;
      }
      found := true;
      ok := LoadConfig(file.value, Audio);
      if !ok {
        return;
      }
      ok := LoadConfig(file.value, Route);
    }

    /** `setPlatformStateEvent`. */
    method SetPlatformStateEvent(name: string)
      modifies this
      ensures Model() == PlatformEvents.SetPlatformStateEvent(old(Model()), name)
      ensures calls == old(calls)
    {
      if StatesChanged !in routeCriteria {
        return;
      }
      var stateChange := routeCriteria[StatesChanged];
      var eventId: Word := 0;
      var found := EventCode(Model(), name);
      if found.Some? {
        eventId := found.value;
      } else {
        audioChanged := true;
      }
      routeCriteria := routeCriteria[StatesChanged := stateChange.(value := WordOr(stateChange.value, eventId))];
    }

    /** `hasPlatformStateChanged`. */
    function HasPlatformStateChanged(): bool
      requires StatesChanged in routeCriteria
      reads this
    {
      PlatformEvents.HasPlatformStateChanged(Model())
    }

    /** `clearPlatformStateEvents`. */
    method ClearPlatformStateEvents()
      requires StatesChanged in routeCriteria
      modifies this
      ensures Model() == PlatformEvents.ClearPlatformStateEvents(old(Model()))
      ensures calls == old(calls)
    {
      routeCriteria := routeCriteria[StatesChanged := routeCriteria[StatesChanged].(value := 0)];
      audioChanged := false;
    }

    /** `applyPlatformConfiguration`: commit the mask, apply, clear. */
    method ApplyPlatformConfiguration()
      requires StatesChanged in routeCriteria
      modifies this
      ensures Model() == PlatformEvents.ApplyPlatformConfiguration(old(Model())).0
      ensures calls == old(calls) + PlatformEvents.ApplyPlatformConfiguration(old(Model())).1
    {
      calls := calls + [CommitStatesChanged(routeCriteria[StatesChanged].value)];
      calls := calls + [ApplyConfigurations];
      ClearPlatformStateEvents();
    }

    /** `getValue`. */
    function GetValue(name: string): Word
      reads this
    {
      PlatformEvents.GetValue(Model(), name)
    }

    /** `setValue`: each instance that owns the name and reports a change records the event. */
    method SetValue(value: Word, name: string)
      modifies this
      ensures Model() == PlatformEvents.SetValue(old(Model()), value, name)
      ensures calls == old(calls)
    {
      if name in routeCriteria && routeCriteria[name].value != value {
        routeCriteria := routeCriteria[name := routeCriteria[name].(value := value)];
        SetPlatformStateEvent(name);
      }
      if name in audioCriteria && AudioValue(Model(), name) != value {
        audioValues := audioValues[name := value];
        SetPlatformStateEvent(name);
      }
    }

    /**
     * `SetFromAndroidParameterHelper` for one parameter: the value of its key, if present, is
     * handed to it; a conversion failure is counted, a change records its event.
     */
    method SetFromAndroidParameter(p: Parameter, pairs: map<string, string>, dispatch: Dispatch, errorCount: nat)
      returns (errors: nat)
      modifies this
      ensures (Model(), errors) == Offer(old(Model()), errorCount, p, pairs, dispatch)
      ensures calls == old(calls)
    {
      errors := errorCount;
      if p.key in pairs {
        match dispatch(p, pairs[p.key])
        case Unchanged =>
        case ConversionError => errors := errors + 1;
        case Changed(event) => SetPlatformStateEvent(event);
      }
    }

    /** The end of `setParameters`, with the lock held. */
    method ApplyIfChanged(isSynchronous: bool)
      requires StatesChanged in routeCriteria
      modifies this
      ensures Model() == Sync.ApplyIfChanged(old(Model()), isSynchronous).0
      ensures calls == old(calls) + Sync.ApplyIfChanged(old(Model()), isSynchronous).1
    {
      if HasPlatformStateChanged() {
        ghost var applied := PlatformEvents.ApplyPlatformConfiguration(Model()).1;
        ApplyPlatformConfiguration();
        calls := calls + [Unlock, ReconsiderRouting(isSynchronous)];
        assert calls == old(calls) + (applied + [Unlock, ReconsiderRouting(isSynchronous)]);
      } else {
        calls := calls + [Unlock];
      }
    }

    /** The loop of `setParameters`: every parameter, in declaration order. */
    method OfferParameters(pairs: map<string, string>, dispatch: Dispatch) returns (errorCount: nat)
      modifies this
      ensures (Model(), errorCount) == OfferAll(old(Model()), old(parameters), pairs, dispatch)
      ensures calls == old(calls)
    {
      ghost var r0 := Model();
      errorCount := 0;
      var i := 0;
      while i < |parameters|
        invariant 0 <= i <= |parameters| && parameters == r0.parameters
        invariant OfferAll(r0, parameters[..i], pairs, dispatch) == (Model(), errorCount)
        invariant calls == old(calls)
      {
        OfferAllStep(r0, parameters, i, pairs, dispatch);
        errorCount := SetFromAndroidParameter(parameters[i], pairs, dispatch, errorCount);
        i := i + 1;
      }
      assert parameters[..i] == parameters;
    }

    /**
     * `setParameters`: the pairs are offered to every parameter under the write lock; the
     * configuration is applied, the lock released and routing reconsidered only when a
     * change is pending.
     */
    method SetParameters(pairs: map<string, string>, isSynchronous: bool, dispatch: Dispatch) returns (status: Status)
      requires StatesChanged in routeCriteria
      modifies this
      ensures var res := Sync.SetParameters(old(Model()), pairs, isSynchronous, dispatch);
        Model() == res.state && status == res.status && calls == old(calls) + res.calls
    {
      calls := calls + [WriteLock];
      var errorCount := OfferParameters(pairs, dispatch);
      status := if errorCount == 0 then Success else BadValue;
      ApplyIfChanged(isSynchronous);
    }
  }
}
