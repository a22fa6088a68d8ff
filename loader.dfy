/**
 * Loading the audio HAL configuration: which files are read, in which order the sections
 * and entries of a file are visited, and what each entry adds to the registries.
 */
module Loader {
  import opened Wrappers
  import opened Words
  import opened CriterionTypeValues
  import opened MappingTable
  import opened ConfigTree
  import opened Registry
  import opened PlatformEvents

  /**
   * `loadCriterionType` for one child of a type section: the type is declared, then every
   * entry of its value list is registered in order; a malformed entry is fatal.
   */
  function LoadCriterionType(r: Registry, d: Domain, node: Node, inclusive: bool, hex: HexParser, dec: DecimalParser): Result<Registry, Fatal>
  {
    match AddCriterionType(r, d, node.name, inclusive)
    case Err(f) => Err(f)
    case Ok(r1) =>
      var values := DecodeValueList(node.value, inclusive, hex, dec);
      if !values.ok then Err(InvalidValuePair) else AppendValues(r1, d, node.name, values.pairs)
  }

  /**
   * `loadCriterion`: the attributes are read; with an Android key the criterion becomes a
   * criterion parameter, without one a bare criterion.
   */
  function LoadCriterion(r: Registry, d: Domain, node: Node): Result<Registry, Fatal>
  {
    match ChildFields(node.children)
    case None => Err(InvalidValuePair)
    case Some(f) =>
      if f.key != "" then AddCriterionParameter(r, d, f.typeName, f.key, node.name, f.defaultValue, f.mapping)
      else AddCriterion(r, d, node.name, f.typeName, f.defaultValue)
  }

  /** `loadRogueParameterType`: the Android key is mandatory. */
  function LoadRogueParameterType(r: Registry, d: Domain, node: Node): Result<Registry, Fatal>
  {
    match ChildFields(node.children)
    case None => Err(InvalidValuePair)
    case Some(f) =>
      if f.key == "" then Err(MissingParameterKey(node.name))
      else Ok(AddRogueParameter(r, d, f.typeName, f.key, f.path, f.defaultValue, f.mapping))
  }

  /** One entry of a section, tagged with the loop that visits it. */
  datatype Entry = TypeEntry(node: Node, inclusive: bool) | CriterionEntry(node: Node) | RogueEntry(node: Node)

  function LoadEntry(r: Registry, d: Domain, e: Entry, hex: HexParser, dec: DecimalParser): Result<Registry, Fatal>
  {
    match e
    case TypeEntry(node, inclusive) => LoadCriterionType(r, d, node, inclusive, hex, dec)
    case CriterionEntry(node) => LoadCriterion(r, d, node)
    case RogueEntry(node) => LoadRogueParameterType(r, d, node)
  }

  /** The entries loaded in order; the first fatal one stops the load. */
  function LoadEntries(r: Registry, d: Domain, es: seq<Entry>, hex: HexParser, dec: DecimalParser): Result<Registry, Fatal>
  {
    if es == [] then Ok(r)
    else
      match LoadEntries(r, d, es[..|es| - 1], hex, dec)
      case Err(f) => Err(f)
      case Ok(r1) => LoadEntry(r1, d, es[|es| - 1], hex, dec)
  }

  /** `LoadEntries` continued from a result that may already be fatal. */
  function Then(res: Result<Registry, Fatal>, d: Domain, es: seq<Entry>, hex: HexParser, dec: DecimalParser): Result<Registry, Fatal>
  {
    match res
    case Err(f) => Err(f)
    case Ok(r) => LoadEntries(r, d, es, hex, dec)
  }

  /** The children of the last child of `section` with the given name, if there is one. */
  function ChildrenOf(section: Node, tag: string): seq<Node>
  {
    match Find(section, tag)
    case None => []
    case Some(n) => n.children
  }

  function TypeEntries(ns: seq<Node>, inclusive: bool): (es: seq<Entry>)
    ensures |es| == |ns| && forall k :: 0 <= k < |ns| ==> es[k] == TypeEntry(ns[k], inclusive)
  {
    seq(|ns|, k requires 0 <= k < |ns| => TypeEntry(ns[k], inclusive))
  }

  function CriterionEntries(ns: seq<Node>): (es: seq<Entry>)
    ensures |es| == |ns| && forall k :: 0 <= k < |ns| ==> es[k] == CriterionEntry(ns[k])
  {
    seq(|ns|, k requires 0 <= k < |ns| => CriterionEntry(ns[k]))
  }

  function RogueEntries(ns: seq<Node>): (es: seq<Entry>)
    ensures |es| == |ns| && forall k :: 0 <= k < |ns| ==> es[k] == RogueEntry(ns[k])
  {
    seq(|ns|, k requires 0 <= k < |ns| => RogueEntry(ns[k]))
  }

  /** `loadConfigFor`: inclusive types, exclusive types, criteria, then rogue parameters. */
  function SectionEntries(section: Node): seq<Entry>
  {
    TypeEntries(ChildrenOf(section, InclusiveCriterionTypeTag), true)
      + TypeEntries(ChildrenOf(section, ExclusiveCriterionTypeTag), false)
      + CriterionEntries(ChildrenOf(section, CriterionTag))
      + RogueEntries(ChildrenOf(section, RogueParameterTag))
  }

  /** `getPfwInstanceName`: the section holding one instance's own configuration. */
  function InstanceTag(d: Domain): string
  {
    match d
    case Audio => AudioConfTag
    case Route => RouteConfTag
  }

  /** The entries of a section, or none when the section is absent. */
  function OptionalSection(section: Option<Node>): seq<Entry>
  {
    match section
    case None => []
    case Some(s) => SectionEntries(s)
  }

  /** `loadConfig`: the common section, then the instance's own section. */
  function ConfigEntries(root: Node, d: Domain): seq<Entry>
  {
    OptionalSection(Find(root, CommonConfTag)) + OptionalSection(Find(root, InstanceTag(d)))
  }

  function LoadConfig(r: Registry, d: Domain, root: Node, hex: HexParser, dec: DecimalParser): Result<Registry, Fatal>
  {
    LoadEntries(r, d, ConfigEntries(root, d), hex, dec)
  }

  /**
   * `loadAudioHalConfig`: None when the file cannot be read (`-ENODEV`); otherwise the
   * audio instance is loaded, then the route instance.
   */
  function LoadAudioHalConfig(r: Registry, file: Option<Node>, hex: HexParser, dec: DecimalParser): (res: Option<Result<Registry, Fatal>>)
    ensures res.None? <==> file.None?
  {
    match file
    case None => None
    case Some(root) => Some(Then(LoadConfig(r, Audio, root, hex, dec), Route, ConfigEntries(root, Route), hex, dec))
  }

  /** The StatesChanged criterion the constructor inserts once loading is over. */
  function InsertStatesChanged(r: Registry): Registry
  {
    r.(routeCriteria := r.routeCriteria[StatesChanged := Criterion(StatesChanged, 0)])
  }

  /**
   * The constructor: the vendor file is tried first and the system file only when the
   * vendor file cannot be read; with neither, the engine starts with no configuration.
   */
  function Construct(vendor: Option<Node>, system: Option<Node>, hex: HexParser, dec: DecimalParser): Result<Registry, Fatal>
  {
    var loaded :=
      match LoadAudioHalConfig(Initial(), vendor, hex, dec)
      case Some(res) => res
      case None =>
        match LoadAudioHalConfig(Initial(), system, hex, dec)
        case Some(res) => res
        case None => Ok(Initial());
    match loaded
    case Err(f) => Err(f)
    case Ok(r) => Ok(InsertStatesChanged(r))
  }

  /** Loading `a + b` is loading `a`, then `b` from where `a` left off. */
  lemma {:induction false} LoadEntriesAppend(r: Registry, d: Domain, a: seq<Entry>, b: seq<Entry>, hex: HexParser, dec: DecimalParser)
    ensures LoadEntries(r, d, a + b, hex, dec) == Then(LoadEntries(r, d, a, hex, dec), d, b, hex, dec)
  {
    if b == [] {
      assert a + b == a;
    } else {
      var n := |b| - 1;
      assert (a + b)[..|a + b| - 1] == a + b[..n];
      LoadEntriesAppend(r, d, a, b[..n], hex, dec);
    }
  }

  /** One more entry, loaded from where the prefix left off. */
  lemma LoadEntriesStep(r: Registry, d: Domain, es: seq<Entry>, i: nat, m: Registry, hex: HexParser, dec: DecimalParser)
    requires i < |es| && LoadEntries(r, d, es[..i], hex, dec) == Ok(m)
    ensures LoadEntries(r, d, es[..i + 1], hex, dec) == LoadEntry(m, d, es[i], hex, dec)
  {
    assert es[..i + 1][..i] == es[..i];
  }

  /** Once an entry is fatal, so is the load of any longer list. */
  lemma {:induction false} FatalPrefix(r: Registry, d: Domain, es: seq<Entry>, n: nat, hex: HexParser, dec: DecimalParser)
    requires n <= |es| && LoadEntries(r, d, es[..n], hex, dec).Err?
    ensures LoadEntries(r, d, es, hex, dec).Err?
    decreases |es| - n
  {
    if n < |es| {
      assert es[..n + 1][..n] == es[..n];
      FatalPrefix(r, d, es, n + 1, hex, dec);
    } else {
      assert es[..n] == es;
    }
  }

  /** A section is loaded as its inclusive types, exclusive types, criteria and rogue parameters, in that order. */
  lemma SectionInOrder(r: Registry, d: Domain, section: Node, hex: HexParser, dec: DecimalParser)
    ensures var incl := TypeEntries(ChildrenOf(section, InclusiveCriterionTypeTag), true);
      var excl := TypeEntries(ChildrenOf(section, ExclusiveCriterionTypeTag), false);
      var crit := CriterionEntries(ChildrenOf(section, CriterionTag));
      var rogue := RogueEntries(ChildrenOf(section, RogueParameterTag));
      LoadEntries(r, d, SectionEntries(section), hex, dec)
        == Then(Then(Then(LoadEntries(r, d, incl, hex, dec), d, excl, hex, dec), d, crit, hex, dec), d, rogue, hex, dec)
  {
    var incl := TypeEntries(ChildrenOf(section, InclusiveCriterionTypeTag), true);
    var excl := TypeEntries(ChildrenOf(section, ExclusiveCriterionTypeTag), false);
    var crit := CriterionEntries(ChildrenOf(section, CriterionTag));
    var rogue := RogueEntries(ChildrenOf(section, RogueParameterTag));
    LoadEntriesAppend(r, d, incl + excl + crit, rogue, hex, dec);
    LoadEntriesAppend(r, d, incl + excl, crit, hex, dec);
    LoadEntriesAppend(r, d, incl, excl, hex, dec);
    ThenAppend(LoadEntries(r, d, incl, hex, dec), d, excl, crit, hex, dec);
    ThenAppend(LoadEntries(r, d, incl + excl, hex, dec), d, crit, rogue, hex, dec);
  }

  lemma ThenAppend(res: Result<Registry, Fatal>, d: Domain, a: seq<Entry>, b: seq<Entry>, hex: HexParser, dec: DecimalParser)
    ensures Then(res, d, a + b, hex, dec) == Then(Then(res, d, a, hex, dec), d, b, hex, dec)
  {
    if res.Ok? {
      LoadEntriesAppend(res.value, d, a, b, hex, dec);
    }
  }

  /** `loadConfig` loads the common section completely before the instance's own section. */
  lemma CommonBeforeInstance(r: Registry, d: Domain, root: Node, hex: HexParser, dec: DecimalParser)
    ensures LoadConfig(r, d, root, hex, dec)
      == Then(LoadEntries(r, d, OptionalSection(Find(root, CommonConfTag)), hex, dec), d, OptionalSection(Find(root, InstanceTag(d))), hex, dec)
  {
    LoadEntriesAppend(r, d, OptionalSection(Find(root, CommonConfTag)), OptionalSection(Find(root, InstanceTag(d))), hex, dec);
  }

  /**
   * A file is loaded for the audio instance first: a fatal audio entry ends the load before
   * any route entry is read, and the route instance starts from the state the audio load left.
   */
  lemma AudioBeforeRoute(r: Registry, root: Node, hex: HexParser, dec: DecimalParser)
    ensures var audio := LoadConfig(r, Audio, root, hex, dec);
      && (audio.Err? ==> LoadAudioHalConfig(r, Some(root), hex, dec) == Some(audio))
      && (audio.Ok? ==> LoadAudioHalConfig(r, Some(root), hex, dec) == Some(LoadConfig(audio.value, Route, root, hex, dec)))
  {
  }

  /** The vendor file, when it can be read, decides alone; the system file is then never looked at. */
  lemma VendorFileFirst(v: Node, system1: Option<Node>, system2: Option<Node>, hex: HexParser, dec: DecimalParser)
    ensures Construct(Some(v), system1, hex, dec) == Construct(Some(v), system2, hex, dec)
  {
  }

  /** Without a vendor file the system file is used, as if it were the vendor file. */
  lemma SystemFileFallback(system: Option<Node>, other: Option<Node>, hex: HexParser, dec: DecimalParser)
    ensures Construct(None, system, hex, dec) == Construct(system, None, hex, dec)
  {
  }

  /** With neither file the engine holds only the StatesChanged type and criterion. */
  lemma NoConfigurationFile(hex: HexParser, dec: DecimalParser)
    ensures Construct(None, None, hex, dec).Ok?
    ensures var r := Construct(None, None, hex, dec).value;
      r.routeCriteria.Keys == {StatesChanged} && r.parameters == [] && r.routeTypes.Keys == {StatesChanged}
  {
  }

  /** A route criterion type called StatesChanged hits the duplicate-type assertion. */
  lemma StatesChangedTypeIsFatal(r: Registry, node: Node, inclusive: bool, hex: HexParser, dec: DecimalParser)
    requires Aligned(r) && node.name == StatesChanged
    ensures LoadEntry(r, Route, TypeEntry(node, inclusive), hex, dec) == Err(DuplicateCriterionType(StatesChanged))
  {
  }

  /**
   * A route criterion type that loads holds exactly the pairs its value list decodes to,
   * the `index`-driven codes included.
   */
  lemma LoadedTypeHoldsValues(r: Registry, node: Node, inclusive: bool, hex: HexParser, dec: DecimalParser)
    requires LoadCriterionType(r, Route, node, inclusive, hex, dec).Ok?
    ensures var values := DecodeValueList(node.value, inclusive, hex, dec);
      && node.name !in r.routeTypes
      && values.ok
      && LoadCriterionType(r, Route, node, inclusive, hex, dec).value.routeTypes
           == r.routeTypes[node.name := CriterionType(inclusive, values.pairs)]
  {
    var values := DecodeValueList(node.value, inclusive, hex, dec);
    assert [] + values.pairs == values.pairs;
  }

  /** A malformed value list is fatal, whatever the domain. */
  lemma MalformedValueListIsFatal(r: Registry, d: Domain, node: Node, inclusive: bool, hex: HexParser, dec: DecimalParser)
    requires !DecodeValueList(node.value, inclusive, hex, dec).ok
    ensures LoadCriterionType(r, d, node, inclusive, hex, dec).Err?
  {
  }

  /** A criterion entry with an Android key becomes a criterion parameter bound to that key. */
  lemma KeyedCriterionIsParameter(r: Registry, d: Domain, node: Node, f: Fields)
    requires ChildFields(node.children) == Some(f) && f.key != ""
    requires LoadCriterion(r, d, node).Ok?
    ensures var r' := LoadCriterion(r, d, node).value;
      && r'.parameters == r.parameters + [CriterionParameter(d, f.key, node.name, f.typeName, f.defaultValue, f.mapping)]
      && r'.audioCriteria == r.audioCriteria
    ensures var r' := LoadCriterion(r, d, node).value;
      d == Route ==>
        && r'.routeCriteria.Keys == r.routeCriteria.Keys + {node.name}
        && f.typeName in r.routeTypes
        && r'.routeCriteria == r.routeCriteria[node.name := Criterion(f.typeName, DefaultCode(r.routeTypes[f.typeName], f.defaultValue))]
    ensures var r' := LoadCriterion(r, d, node).value;
      d == Route ==>
        && StatesChanged in r.routeTypes
        && r'.routeTypes == r.routeTypes[StatesChanged := r.routeTypes[StatesChanged].(values :=
             r.routeTypes[StatesChanged].values + [ValuePair(Bit(|r.routeCriteria|), node.name)])]
        && r'.(routeTypes := r.routeTypes, routeCriteria := r.routeCriteria, parameters := r.parameters) == r
    ensures var r' := LoadCriterion(r, d, node).value;
      d == Audio ==> r'.(parameters := r.parameters) == r
  {
    assert LoadCriterion(r, d, node) == AddCriterionParameter(r, d, f.typeName, f.key, node.name, f.defaultValue, f.mapping);
    AddCriterionParameterAdds(r, d, f.typeName, f.key, node.name, f.defaultValue, f.mapping);
  }

  /** A criterion entry without a key is a bare criterion of its instance and adds no parameter. */
  lemma BareCriterionIsCriterion(r: Registry, d: Domain, node: Node, f: Fields)
    requires ChildFields(node.children) == Some(f) && f.key == ""
    requires LoadCriterion(r, d, node).Ok?
    ensures var r' := LoadCriterion(r, d, node).value;
      && r'.parameters == r.parameters
      && (d == Route ==> node.name !in r.routeCriteria && r'.routeCriteria.Keys == r.routeCriteria.Keys + {node.name})
      && (d == Route ==>
            && f.typeName in r.routeTypes
            && r'.routeCriteria == r.routeCriteria[node.name := Criterion(f.typeName, DefaultCode(r.routeTypes[f.typeName], f.defaultValue))])
      && (d == Route ==>
            && StatesChanged in r.routeTypes
            && r'.routeTypes == r.routeTypes[StatesChanged := r.routeTypes[StatesChanged].(values :=
                 r.routeTypes[StatesChanged].values + [ValuePair(Bit(|r.routeCriteria|), node.name)])]
            && r'.(routeTypes := r.routeTypes, routeCriteria := r.routeCriteria) == r)
      && (d == Audio ==> node.name !in r.audioCriteria && r'.audioCriteria == r.audioCriteria[node.name := f.typeName])
      && (d == Audio ==> r'.audioValues == r.audioValues[node.name :=
            if f.typeName in r.audioTypes then DefaultCode(r.audioTypes[f.typeName], f.defaultValue) else 0])
      && (d == Audio ==> r'.(audioCriteria := r.audioCriteria, audioValues := r.audioValues) == r)
  {
    assert LoadCriterion(r, d, node) == AddCriterion(r, d, node.name, f.typeName, f.defaultValue);
    AddCriterionAdds(r, d, node.name, f.typeName, f.defaultValue);
  }

  /** A rogue parameter without an Android key is fatal. */
  lemma RogueWithoutKeyIsFatal(r: Registry, d: Domain, node: Node, f: Fields)
    requires ChildFields(node.children) == Some(f) && f.key == ""
    ensures LoadRogueParameterType(r, d, node) == Err(MissingParameterKey(node.name))
  {
  }

  /** A rogue parameter of an unsupported type is dropped; a supported one is appended. */
  lemma RogueKindDecides(r: Registry, d: Domain, node: Node, f: Fields)
    requires ChildFields(node.children) == Some(f) && f.key != ""
    ensures KindOf(f.typeName).None? ==> LoadRogueParameterType(r, d, node) == Ok(r)
    ensures KindOf(f.typeName).Some? ==>
      LoadRogueParameterType(r, d, node)
        == Ok(r.(parameters := r.parameters + [RogueParameter(d, KindOf(f.typeName).value, f.key, f.path, f.defaultValue, f.mapping)]))
  {
  }

  /** While loading, the StatesChanged type stays aligned with the route criteria and no event is pending. */
  predicate Loading(r: Registry)
  {
    Aligned(r) && !r.audioChanged
  }

  lemma LoadEntryKeepsLoading(r: Registry, d: Domain, e: Entry, hex: HexParser, dec: DecimalParser)
    requires Loading(r) && LoadEntry(r, d, e, hex, dec).Ok?
    ensures Loading(LoadEntry(r, d, e, hex, dec).value)
  {
    match e
    case TypeEntry(node, inclusive) => TypeEntryKeepsLoading(r, d, node, inclusive, hex, dec);
    case CriterionEntry(node) => CriterionEntryKeepsLoading(r, d, node);
    case RogueEntry(node) =>
  }

  lemma TypeEntryKeepsLoading(r: Registry, d: Domain, node: Node, inclusive: bool, hex: HexParser, dec: DecimalParser)
    requires Loading(r) && LoadCriterionType(r, d, node, inclusive, hex, dec).Ok?
    ensures Loading(LoadCriterionType(r, d, node, inclusive, hex, dec).value)
  {
    var r1 := AddCriterionType(r, d, node.name, inclusive).value;
    AddCriterionTypeAligned(r, d, node.name, inclusive);
    var values := DecodeValueList(node.value, inclusive, hex, dec);
    AppendValuesAligned(r1, d, node.name, values.pairs);
  }

  lemma CriterionEntryKeepsLoading(r: Registry, d: Domain, node: Node)
    requires Loading(r) && LoadCriterion(r, d, node).Ok?
    ensures Loading(LoadCriterion(r, d, node).value)
  {
    var f := ChildFields(node.children).value;
    if f.key != "" {
      AddCriterionParameterAligned(r, d, f.typeName, f.key, node.name, f.defaultValue, f.mapping);
    } else {
      AddCriterionAligned(r, d, node.name, f.typeName, f.defaultValue);
    }
  }

  lemma {:induction false} LoadEntriesKeepLoading(r: Registry, d: Domain, es: seq<Entry>, hex: HexParser, dec: DecimalParser)
    requires Loading(r) && LoadEntries(r, d, es, hex, dec).Ok?
    ensures Loading(LoadEntries(r, d, es, hex, dec).value)
  {
    if es != [] {
      var n := |es| - 1;
      LoadEntriesKeepLoading(r, d, es[..n], hex, dec);
      LoadEntryKeepsLoading(LoadEntries(r, d, es[..n], hex, dec).value, d, es[n], hex, dec);
    }
  }

  lemma HalConfigKeepsLoading(r: Registry, file: Option<Node>, hex: HexParser, dec: DecimalParser)
    requires Loading(r)
    requires LoadAudioHalConfig(r, file, hex, dec).Some? && LoadAudioHalConfig(r, file, hex, dec).value.Ok?
    ensures Loading(LoadAudioHalConfig(r, file, hex, dec).value.value)
  {
    var root := file.value;
    LoadEntriesKeepLoading(r, Audio, ConfigEntries(root, Audio), hex, dec);
    LoadEntriesKeepLoading(LoadConfig(r, Audio, root, hex, dec).value, Route, ConfigEntries(root, Route), hex, dec);
  }

  /**
   * A constructed engine is ready: the StatesChanged criterion exists with value 0, every
   * route criterion added from the files owns its own bit, and no change is pending.
   */
  lemma ConstructedIsReady(vendor: Option<Node>, system: Option<Node>, hex: HexParser, dec: DecimalParser)
    requires Construct(vendor, system, hex, dec).Ok?
    ensures var r := Construct(vendor, system, hex, dec).value;
      Ready(r) && StateValue(r) == 0 && !HasPlatformStateChanged(r)
    ensures var r := Construct(vendor, system, hex, dec).value;
      r.routeCriteria.Keys - {StatesChanged} <= Literals(r.routeTypes[StatesChanged].values) <= r.routeCriteria.Keys
  {
    var loaded :=
      match LoadAudioHalConfig(Initial(), vendor, hex, dec)
      case Some(res) => res
      case None =>
        match LoadAudioHalConfig(Initial(), system, hex, dec)
        case Some(res) => res
        case None => Ok(Initial());
    if LoadAudioHalConfig(Initial(), vendor, hex, dec).Some? {
      HalConfigKeepsLoading(Initial(), vendor, hex, dec);
    } else if LoadAudioHalConfig(Initial(), system, hex, dec).Some? {
      HalConfigKeepsLoading(Initial(), system, hex, dec);
    }
    var vs := loaded.value.routeTypes[StatesChanged].values;
    AlignedIsDistinct(vs, loaded.value.routeCriteria.Keys);
  }
}
