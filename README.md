# Audio platform state, modelled in Dafny

This project models the platform-state engine of the Android audio HAL
(`AudioPlatformState`). The engine keeps typed, named state variables ("criteria") for
two parameter-framework instances, Audio and Route, and fills them from a text
configuration file. It binds Android `setParameters` keys to those criteria. It collects
"something changed" events in a bit mask, the StatesChanged criterion, and asks the
routing side to re-evaluate only when an event is pending.

The model has three layers:

- **Pure parsing.** `Tokens` models `strtok`. `CriterionTypeValues` decodes the value list
  of a criterion type, with its running `index`. `MappingTable` models `parseMappingTable`.
  `ConfigTree` holds the configuration tree, which is an input, and `parseChildren`.
- **Specification functions over a value `Registry`.** `Registry` covers the maps, the
  parameter vector and the registration assertions. `Loader` covers the order in which
  files, sections and entries are loaded. `PlatformEvents` covers the StatesChanged
  aggregator and `getValue`/`setValue`. `Sync` covers `setParameters`. A fatal
  `AUDIOCOMMS_ASSERT` is an `Err(Fatal)` result.
- **The engine object.** `PlatformState.AudioPlatformState` is a class whose fields are
  the engine's maps, vector and flag, plus a trace of the calls made on the lock and the
  collaborators. Its loading loops and its runtime methods update those fields in place.
  Each method is proved to leave exactly the state, and append exactly the calls, that the
  specification function gives for the state before the call, when the call succeeds. After
  a fatal assertion the model promises nothing about the state (see "Left out").

How `loadCriterionType` reads a criterion-type value list:

- An explicit entry is `code:literal`: the code is the part before the colon.
- An explicit code overwrites the running `index`, and the index does not advance after
  it. In an exclusive list `0x10:x,y`, both `x` and `y` get code 16; `y` does not get
  index 0. Explicit codes can therefore repeat a code, or make a later inclusive bare
  literal reuse a bit. `ExplicitThenBare` and `ExplicitEntrySetsIndex` state this.

Two collaborators are parameters of the model rather than part of it:

- **`convertTo`.** The two numeric parsers are passed in as partial functions
  (`HexParser`, `DecimalParser`). When a conversion fails, the engine only logs it. The
  model assumes `convertTo` then leaves its output untouched, so `index` keeps its value
  for hex and `signedIndex` stays 0 for decimal (see "Left out").
- **The parameter objects.** What a parameter does with the value of its key is a
  `Dispatch` function. It reports `Unchanged`, `ConversionError`, or `Changed(event)`.

## Model

| member | source | states |
|---|---|---|
| Words.FromInt32 | audio_platform_state/src/AudioPlatformState.cpp:266-270 | a signed 32-bit code is reinterpreted as unsigned: non-negative values are kept, negative ones map to v + 2^32 |
| Words.BitIsSingle | audio_platform_state/src/AudioPlatformState.cpp:277 | `1 << i` for i < 32 has bit i set and no other |
| Words.OrHasBit | audio_platform_state/src/AudioPlatformState.cpp:752 | a bit of `a \| b` is set iff it is set in a or in b |
| Words.OrZero | audio_platform_state/src/AudioPlatformState.cpp:732 | `a \| b` is 0 iff both are 0 |
| Tokens.Split | audio_platform_state/src/AudioPlatformState.cpp:246-247 | `strtok` yields only non-empty tokens free of the delimiter |
| Tokens.SplitJoin | audio_platform_state/src/AudioPlatformState.cpp:246-285 | splitting undoes joining for non-empty, delimiter-free tokens |
| Tokens.ColonPairNeedsBothSides | audio_platform_state/src/AudioPlatformState.cpp:254-258 | an entry `a:b` with one colon gives a pair iff both sides are non-empty, so `:b`, `a:` and `:` are rejected |
| Tokens.ColonPairOfJoin | audio_platform_state/src/AudioPlatformState.cpp:254-255 | `a:b` with colon-free non-empty sides reads back as (a, b) |
| CriterionTypeValues.RunOkIff | audio_platform_state/src/AudioPlatformState.cpp:247-285 | from any running state, the loop avoids the assertion iff every entry is well formed; it then appends one pair per entry, in order, carrying the entry's literal |
| CriterionTypeValues.DecodeOkIff | audio_platform_state/src/AudioPlatformState.cpp:244-285 | a list decodes iff every entry is well formed; it then has exactly one pair per entry, with that entry's literal |
| CriterionTypeValues.BareLiteralsContinue | audio_platform_state/src/AudioPlatformState.cpp:276-281 | after any prefix that leaves index i, the j-th following bare literal gets `1 << (i+j)` (inclusive) or `i+j` (exclusive), and the index ends at i plus their number, all modulo 2^32 as the unsigned index wraps |
| CriterionTypeValues.BareListCodes | audio_platform_state/src/AudioPlatformState.cpp:244-281 | a list of bare literals of any length gives the k-th literal code `1 << k` or `k`, and leaves the index at their number, modulo 2^32 |
| CriterionTypeValues.BareInclusiveCodesAreSingleBits | audio_platform_state/src/AudioPlatformState.cpp:277 | in an inclusive bare list the k-th code (k < 32) is the single bit k, so codes are pairwise disjoint |
| CriterionTypeValues.ExplicitEntrySetsIndex | audio_platform_state/src/AudioPlatformState.cpp:252-274 | an explicit entry registers its literal with its code and sets the running index to that code, without incrementing it |
| CriterionTypeValues.InclusiveBareList | audio_platform_state/src/AudioPlatformState.cpp:244-281 | `a,b,c` in an inclusive type gives codes 1, 2, 4 and index 3 |
| CriterionTypeValues.ExplicitThenBare | audio_platform_state/src/AudioPlatformState.cpp:252-281 | `0x10:x,y` in an exclusive type gives x and y the same code |
| CriterionTypeValues.NegativeDecimalCode | audio_platform_state/src/AudioPlatformState.cpp:266-270 | `-1:z` registers z with 0xFFFFFFFF |
| CriterionTypeValues.IndexWraps | audio_platform_state/src/AudioPlatformState.cpp:266-281 | in an exclusive type `-1:z,a,b` gives a the code 0xFFFFFFFF and b the code 0, since the running index wraps at 2^32 |
| CriterionTypeValues.EmptySideIsFatal | audio_platform_state/src/AudioPlatformState.cpp:256-258 | `a:` (empty second side) hits the "invalid value pair" assertion |
| MappingTable.ParseMappingTable | audio_platform_state/src/AudioPlatformState.cpp:518-542 | the loop returns exactly the table `MappingPairs` describes, or None at the assertion |
| MappingTable.PairsOfIff | audio_platform_state/src/AudioPlatformState.cpp:526-539 | the table is accepted iff every entry has two non-empty sides; it then holds one pair per entry, in input order |
| MappingTable.MappingRoundTrip | audio_platform_state/src/AudioPlatformState.cpp:518-542 | rendering well-formed pairs as `a:b,c:d` and parsing the result gives the pairs back |
| MappingTable.EmptyTable | audio_platform_state/src/AudioPlatformState.cpp:526-541 | an empty string, or one of commas only, gives the empty table |
| ConfigTree.ParseChildren | audio_platform_state/src/AudioPlatformState.cpp:406-435 | the loop over an entry's children returns the attributes `ChildFields` describes, or None at a malformed mapping table |
| ConfigTree.ChildFieldsOkIff | audio_platform_state/src/AudioPlatformState.cpp:415-432 | reading the children succeeds iff every mapping-table child parses |
| ConfigTree.LastChildWins | audio_platform_state/src/AudioPlatformState.cpp:415-432 | each attribute is the value of the last child with its name, "" when there is none; the mapping is the last mapping child's table |
| Registry.Initial | audio_platform_state/src/AudioPlatformState.cpp:119-123 | before any file is read, the only route type is the inclusive StatesChanged type, with no values; there are no criteria, no parameters, no audio types or values, and the audio flag is down |
| Registry.AddCriterionType | audio_platform_state/src/AudioPlatformState.cpp:186-206 | a route type name must be new (else fatal), and the new type has the declared inclusiveness and no values, with every other type and map unchanged; an audio type is always accepted: a known one is left as it is, a new one is added empty |
| Registry.AppendValues | audio_platform_state/src/AudioPlatformState.cpp:208-229 | adding pairs to a route type succeeds iff the type exists (else the "not found" assertion); the type's values become the old ones followed by the pairs, with its inclusiveness, every other type and the rest of the state unchanged; audio always succeeds, appends the same way to a known type and ignores an unknown one |
| Registry.AddRouteCriterion | audio_platform_state/src/AudioPlatformState.cpp:372-381 | succeeds iff the name is new (the StatesChanged type exists once the engine is built); the route map gains exactly that name; StatesChanged gains the pair (`1 << n`, name) with n the previous number of route criteria; every other route type, the inclusiveness of StatesChanged, the parameters and all audio state are unchanged |
| Registry.AddCriterion | audio_platform_state/src/AudioPlatformState.cpp:544-565 | a route criterion is accepted iff its name is new and its type is known (a duplicate name, then an unknown type, is fatal, the latter being the element lookup at lines 484-491); an audio criterion iff its name is new to the audio map |
| Registry.AddCriterionParameter | audio_platform_state/src/AudioPlatformState.cpp:346-370 | a route criterion parameter is accepted iff its type is known (else the element lookup at lines 484-491 fails) and its name is new (else the duplicate assertion of `addRouteCriterion`); an audio one always |
| Registry.AddCriterionAdds | audio_platform_state/src/AudioPlatformState.cpp:544-565 | a keyless criterion is new in its instance and adds no parameter; a route one maps its name to a criterion of its type whose value is the default literal's code (or 0); a route one also appends `1 << n` (n the number of route criteria before) with its name to StatesChanged, leaving every other route type and all audio state unchanged; an audio one records its type name and stores that initial value, changing nothing else |
| Registry.AddCriterionParameterAdds | audio_platform_state/src/AudioPlatformState.cpp:346-370 | a criterion parameter is appended to the parameter vector; a route one also maps its new name to a criterion of its type, valued at the default literal's code (or 0), and appends `1 << n` (n the number of route criteria before) with its name to StatesChanged, leaving every other route type and all audio state unchanged; an audio one changes nothing else |
| Registry.KindOf | audio_platform_state/src/AudioPlatformState.cpp:390-402 | a rogue type is supported iff it is one of the unsigned-int, string and double tags |
| Registry.StatesChangedTypeIsReserved | audio_platform_state/src/AudioPlatformState.cpp:196-206 | with StatesChanged pre-inserted, declaring a route type of that name is the duplicate-type assertion |
| Registry.AddRouteCriterionAligned | audio_platform_state/src/AudioPlatformState.cpp:372-381 | a new route criterion keeps StatesChanged aligned (j-th value has code `1 << j`, one value per route criterion) and grows the route map by exactly one |
| Registry.AddCriterionTypeAligned | audio_platform_state/src/AudioPlatformState.cpp:186-206 | declaring a type keeps the alignment |
| Registry.AppendValuesAligned | audio_platform_state/src/AudioPlatformState.cpp:208-229 | adding values to a type other than StatesChanged keeps the alignment |
| Registry.AddCriterionAligned | audio_platform_state/src/AudioPlatformState.cpp:544-565 | adding a criterion keeps the alignment |
| Registry.AddCriterionParameterAligned | audio_platform_state/src/AudioPlatformState.cpp:346-370 | adding a criterion parameter keeps the alignment |
| Registry.AlignedBitsSingle | audio_platform_state/src/AudioPlatformState.cpp:378-379 | when aligned, the j-th StatesChanged code (j < 32) has bit j and no other, so route criteria never share a bit |
| PlatformEvents.SetPlatformStateEvent | audio_platform_state/src/AudioPlatformState.cpp:735-754 | without a StatesChanged criterion nothing changes; otherwise only its value and the audio flag may change, and readiness is kept |
| PlatformEvents.ClearPlatformStateEvents | audio_platform_state/src/AudioPlatformState.cpp:756-760 | afterwards no change is pending; every other criterion, both type maps, the audio maps and the parameters are unchanged |
| PlatformEvents.ApplyPlatformConfiguration | audio_platform_state/src/AudioPlatformState.cpp:769-774 | commits the current mask, then applies, then clears |
| PlatformEvents.ApplyClearsChange | audio_platform_state/src/AudioPlatformState.cpp:769-774 | after applying, the mask is 0, the audio flag is false, and no change is pending |
| PlatformEvents.EventKeepsBits | audio_platform_state/src/AudioPlatformState.cpp:752-753 | an event never clears a bit of the mask nor lowers the audio flag |
| PlatformEvents.EventCodeOfValue | audio_platform_state/src/AudioPlatformState.cpp:745-746 | on a ready state, the j-th StatesChanged literal maps to code `1 << j` |
| PlatformEvents.KnownEventSetsItsBit | audio_platform_state/src/AudioPlatformState.cpp:743-753 | the event of the j-th route criterion (j < 32) sets exactly bit j on top of the old mask and leaves the audio flag alone |
| PlatformEvents.UnknownEventSetsFlag | audio_platform_state/src/AudioPlatformState.cpp:745-751 | an event that is no StatesChanged value leaves the mask and only raises the audio flag |
| PlatformEvents.EventMarksChange | audio_platform_state/src/AudioPlatformState.cpp:735-754 | on a ready state, any event leaves a change pending |
| PlatformEvents.EventKeepsChange | audio_platform_state/src/AudioPlatformState.cpp:735-754 | a pending change survives further events |
| PlatformEvents.SetValue | audio_platform_state/src/AudioPlatformState.cpp:776-786 | setting a value changes no type, criterion name or parameter; every other route criterion except the StatesChanged mask, and every other audio value, keeps its value; only the named audio value can be added; readiness is kept |
| PlatformEvents.SetGetRoute | audio_platform_state/src/AudioPlatformState.cpp:776-792 | a value set on a route criterion (other than StatesChanged) is read back by getValue |
| PlatformEvents.SetGetAudio | audio_platform_state/src/AudioPlatformState.cpp:782-797 | a value set on an audio-only criterion is read back by getValue |
| PlatformEvents.SetValueIgnoresUnknown | audio_platform_state/src/AudioPlatformState.cpp:776-799 | a name in neither map is ignored by setValue and reads as 0 |
| PlatformEvents.SetValueUnchanged | audio_platform_state/src/AudioPlatformState.cpp:776-786 | setting the value a criterion already holds records no event |
| PlatformEvents.SetValueMarksChange | audio_platform_state/src/AudioPlatformState.cpp:776-786 | setting a different value on a ready state leaves a change pending |
| Sync.OfferAll | audio_platform_state/src/AudioPlatformState.cpp:684-685 | offering the pairs to the parameters adds or removes no route criterion |
| Sync.SetParameters | audio_platform_state/src/AudioPlatformState.cpp:677-703 | the call always ends with no change pending |
| Sync.ApplyIfChanged | audio_platform_state/src/AudioPlatformState.cpp:689-700 | ends with no change pending; the last call is reconsiderRouting iff a change was pending, else the unlock |
| Sync.NoErrorsIff | audio_platform_state/src/AudioPlatformState.cpp:683-686 | the error count is 0 iff no parameter fails to convert its value |
| Sync.StatusIff | audio_platform_state/src/AudioPlatformState.cpp:686 | the status is OK iff every conversion succeeded, and BAD_VALUE otherwise |
| Sync.UnhandledKeysIgnored | audio_platform_state/src/AudioPlatformState.cpp:668-675 | keys no parameter claims change neither the state, the status nor the calls |
| Sync.CallOrder | audio_platform_state/src/AudioPlatformState.cpp:679-700 | with a change pending the calls are lock, commit, apply, unlock, reconsiderRouting(isSynchronous); otherwise lock, unlock; reconsiderRouting happens iff a change is pending |
| Sync.QuietOfferKeepsState | audio_platform_state/src/AudioPlatformState.cpp:684-685 | when no parameter reports a change, offering leaves the state as it was |
| Sync.QuietCallDoesNotNotify | audio_platform_state/src/AudioPlatformState.cpp:689-692 | from a clean state, a call where nothing changes only locks and unlocks, and keeps the state |
| Sync.OfferKeepsChange | audio_platform_state/src/AudioPlatformState.cpp:684-685 | once a change is pending, offering further parameters keeps it pending |
| Sync.ReportMarksChange | audio_platform_state/src/AudioPlatformState.cpp:705-711 | on a ready state, when the last parameter offered reports a changed criterion, its event leaves a change pending |
| Sync.ReportedChangeNotifies | audio_platform_state/src/AudioPlatformState.cpp:689-700 | if any parameter reports a change, the configuration is applied and routing reconsidered once, last, with the caller's flag |
| Loader.LoadAudioHalConfig | audio_platform_state/src/AudioPlatformState.cpp:636-660 | an unreadable file (None) is `-ENODEV`; a readable one always yields a load result |
| Loader.AudioBeforeRoute | audio_platform_state/src/AudioPlatformState.cpp:650-651 | the audio instance is loaded first; a fatal audio entry ends the load, otherwise the route load starts from the audio result |
| Loader.CommonBeforeInstance | audio_platform_state/src/AudioPlatformState.cpp:608-622 | the common section is loaded completely before the instance's own section |
| Loader.SectionInOrder | audio_platform_state/src/AudioPlatformState.cpp:624-634 | a section loads inclusive types, exclusive types, criteria, then rogue parameters |
| Loader.VendorFileFirst | audio_platform_state/src/AudioPlatformState.cpp:125-129 | a readable vendor file decides alone; the system file is never looked at |
| Loader.SystemFileFallback | audio_platform_state/src/AudioPlatformState.cpp:125-129 | without a vendor file, the system file is used as if it were the vendor file |
| Loader.NoConfigurationFile | audio_platform_state/src/AudioPlatformState.cpp:119-135 | with neither file, the engine holds only the StatesChanged type and criterion and no parameter |
| Loader.StatesChangedTypeIsFatal | audio_platform_state/src/AudioPlatformState.cpp:121-123 | a route criterion type named StatesChanged in the file is the duplicate-type assertion |
| Loader.LoadedTypeHoldsValues | audio_platform_state/src/AudioPlatformState.cpp:232-288 | a route type that loads is new and holds exactly the pairs its value list decodes to |
| Loader.MalformedValueListIsFatal | audio_platform_state/src/AudioPlatformState.cpp:256-258 | a malformed value list is fatal in either instance |
| Loader.KeyedCriterionIsParameter | audio_platform_state/src/AudioPlatformState.cpp:581-590 | a criterion with an Android key becomes a criterion parameter bound to that key; for Route it also becomes a new criterion of its type, valued at its default literal's code (or 0), and StatesChanged gains `1 << n` with its name, every other route type and all audio state unchanged; for Audio nothing else changes |
| Loader.BareCriterionIsCriterion | audio_platform_state/src/AudioPlatformState.cpp:591-593 | a criterion without a key is a new bare criterion of its instance and adds no parameter; a route one has its type and its default literal's code (or 0) as its value, and StatesChanged gains `1 << n` with its name, every other route type and all audio state unchanged; an audio one stores that initial value and nothing else changes |
| Loader.RogueWithoutKeyIsFatal | audio_platform_state/src/AudioPlatformState.cpp:452-453 | a rogue parameter without an Android key is fatal |
| Loader.RogueKindDecides | audio_platform_state/src/AudioPlatformState.cpp:383-404 | a rogue parameter of an unsupported type is dropped; a supported one is appended with its kind |
| Loader.LoadEntriesKeepLoading | audio_platform_state/src/AudioPlatformState.cpp:372-381 | any successful load keeps StatesChanged aligned with the route criteria and raises no event |
| Loader.HalConfigKeepsLoading | audio_platform_state/src/AudioPlatformState.cpp:636-660 | loading a whole file keeps that alignment |
| Loader.ConstructedIsReady | audio_platform_state/src/AudioPlatformState.cpp:99-136 | a constructed engine has the StatesChanged criterion at 0 and no change pending; the j-th StatesChanged value has code `1 << j` and a literal of its own, and those literals are route criterion names covering every route criterion other than StatesChanged |
| PlatformState.AudioPlatformState.Empty | audio_platform_state/src/AudioPlatformState.cpp:119-123 | the fields start as the initial registry, with an empty call trace |
| PlatformState.AudioPlatformState.Create | audio_platform_state/src/AudioPlatformState.cpp:99-136 | the object exists iff construction is not fatal, and then holds exactly the constructed registry |
| PlatformState.AudioPlatformState.AddCriterionType | audio_platform_state/src/AudioPlatformState.cpp:186-206 | the fields become the registry `Registry.AddCriterionType` gives; false at the assertion |
| PlatformState.AudioPlatformState.AddCriterionTypeValuePair | audio_platform_state/src/AudioPlatformState.cpp:208-229 | the pair is appended to the type as `Registry.AppendValues` gives; false at the assertion |
| PlatformState.AudioPlatformState.LoadValueList | audio_platform_state/src/AudioPlatformState.cpp:244-285 | the loop with its running index succeeds iff the list decodes, and registers exactly the decoded pairs, in order |
| PlatformState.AudioPlatformState.LoadTypeNode | audio_platform_state/src/AudioPlatformState.cpp:239-286 | one type node is loaded as `Loader.LoadEntry` loads a `TypeEntry` |
| PlatformState.AudioPlatformState.LoadCriterionTypes | audio_platform_state/src/AudioPlatformState.cpp:290-310 | every child of the inclusive or exclusive type section is loaded in order |
| PlatformState.AudioPlatformState.AddRouteCriterion | audio_platform_state/src/AudioPlatformState.cpp:372-381 | the fields become the registry `Registry.AddRouteCriterion` gives |
| PlatformState.AudioPlatformState.AddCriterion | audio_platform_state/src/AudioPlatformState.cpp:544-565 | the fields become the registry `Registry.AddCriterion` gives |
| PlatformState.AudioPlatformState.AddCriterionParameter | audio_platform_state/src/AudioPlatformState.cpp:346-370 | the fields become the registry `Registry.AddCriterionParameter` gives |
| PlatformState.AudioPlatformState.AddRogueParameter | audio_platform_state/src/AudioPlatformState.cpp:320-345 | a supported rogue parameter is appended; an unsupported one is dropped (the Route twin is lines 383-404) |
| PlatformState.AudioPlatformState.LoadCriterion | audio_platform_state/src/AudioPlatformState.cpp:567-594 | one criterion node is loaded as `Loader.LoadEntry` loads a `CriterionEntry` |
| PlatformState.AudioPlatformState.LoadCriteria | audio_platform_state/src/AudioPlatformState.cpp:503-516 | every child of the criterion section is loaded in order |
| PlatformState.AudioPlatformState.LoadRogueParameterType | audio_platform_state/src/AudioPlatformState.cpp:437-460 | one rogue-parameter node is loaded as `Loader.LoadEntry` loads a `RogueEntry` |
| PlatformState.AudioPlatformState.LoadRogueParameterTypeList | audio_platform_state/src/AudioPlatformState.cpp:462-474 | every child of the rogue-parameter section is loaded in order |
| PlatformState.AudioPlatformState.LoadOne | audio_platform_state/src/AudioPlatformState.cpp:513-515 | one element of a section is loaded as `Loader.LoadEntry` loads it, by its kind |
| PlatformState.AudioPlatformState.LoadEntryList | audio_platform_state/src/AudioPlatformState.cpp:513-515 | the loop shared by the section loads stops at the first fatal entry and otherwise leaves the state `Loader.LoadEntries` gives |
| PlatformState.AudioPlatformState.LoadConfigFor | audio_platform_state/src/AudioPlatformState.cpp:624-634 | the four loads of a section, in order |
| PlatformState.AudioPlatformState.LoadConfig | audio_platform_state/src/AudioPlatformState.cpp:608-622 | the common section, then the instance's own section |
| PlatformState.AudioPlatformState.LoadAudioHalConfig | audio_platform_state/src/AudioPlatformState.cpp:636-660 | an unreadable file leaves the state untouched; a readable one loads Audio then Route |
| PlatformState.AudioPlatformState.SetPlatformStateEvent | audio_platform_state/src/AudioPlatformState.cpp:735-754 | the fields become the registry `PlatformEvents.SetPlatformStateEvent` gives |
| PlatformState.AudioPlatformState.ClearPlatformStateEvents | audio_platform_state/src/AudioPlatformState.cpp:756-760 | the mask is zeroed and the audio flag lowered |
| PlatformState.AudioPlatformState.ApplyPlatformConfiguration | audio_platform_state/src/AudioPlatformState.cpp:769-774 | commit and apply are appended to the trace, then the events are cleared |
| PlatformState.AudioPlatformState.SetValue | audio_platform_state/src/AudioPlatformState.cpp:776-786 | the fields become the registry `PlatformEvents.SetValue` gives |
| PlatformState.AudioPlatformState.SetFromAndroidParameter | audio_platform_state/src/AudioPlatformState.cpp:684-685 | one parameter is offered the value of its key, as `Sync.Offer` gives |
| PlatformState.AudioPlatformState.OfferParameters | audio_platform_state/src/AudioPlatformState.cpp:683-685 | every parameter is offered in order; the state and error count are those `Sync.OfferAll` gives |
| PlatformState.AudioPlatformState.ApplyIfChanged | audio_platform_state/src/AudioPlatformState.cpp:689-700 | the end of the call, under the lock, as `Sync.ApplyIfChanged` gives |
| PlatformState.AudioPlatformState.SetParameters | audio_platform_state/src/AudioPlatformState.cpp:677-703 | the new state, the status and the appended calls are exactly those of `Sync.SetParameters` |

## Left out

- `printPlatformFwErrorInfo` (lines 801-855): reading debug files into the log is I/O.
- The read/write lock: only the order of the lock and unlock calls is kept, as entries of the call trace; concurrency is not modelled.
- Logging, the route connector's logger, `start` and `isStarted`: foreign lifecycle and log output.
- The cutils `load_file`, `config_load` and `config_find`: the configuration tree is an input `Node`. `config_find` is taken to return the last child with the name, as cutils does.
- The tag strings (`gCommonConfTag`, `gTypeTag`, the rogue type names, and so on) are defined in AudioHalConf.hpp, which is not part of this model. They are placeholder constants; only the fact that they differ from each other is used.
- `convertTo`: the hex and decimal parsers are parameters. Its source is not part of this model. The model assumes that a failed conversion leaves the output variable as it was. Then a failed hex code reuses the running `index`, and a failed decimal code is 0.
- `double` rogue values: only the rogue parameter's kind is recorded.
- The parameter subclasses and the helper functors (`SetFromAndroidParameterHelper`, `ClearKeyAndroidParameterHelper`, `GetFromAndroidParameterHelper`, `SyncParameterHelper`): their code is not part of this model. A parameter is its key and mapping, and its reaction to a value is the `Dispatch` outcome. So the writes a parameter makes to its own criterion are not modelled, only the event it reports.
- `KeyValuePairs` string parsing: `setParameters` receives the pairs as a map.
- `getParameters`, `sync` and `clearKeys`: the first reads values through the helper functors. `sync` pushes the parameters through them and then applies the configuration. `clearKeys` only logs the unhandled keys; `Sync.UnhandledKeysIgnored` covers its effect, which is none.
- `VolumeKeys::wakeup` in `parameterHasChanged` (line 709): it writes to sysfs; only the `setPlatformStateEvent` that follows it is modelled.
- The stream interface of the audio instance is modelled as a store. `addCriterionType` leaves a known type as it is; `setAudioCriterion` reports a change iff the value differs; `getAudioCriterion` reads the stored value, or 0.
- The route `Criterion` class is not part of this model. Its `setCriterionState` is modelled as storing the value and reporting a change iff the value differs; `SetValueUnchanged` and `SetValueMarksChange` rest on that. Its push of the new value to the route instance is not in the call trace.
- `getNumericalValue` of the StatesChanged type is modelled as the code of the first pair with that literal, or not found. The initial value of a criterion with a default literal is modelled the same way, falling back to 0.
- A fatal `AUDIOCOMMS_ASSERT` aborts the process. The model returns `Err` (or `None`, or `false`) and promises nothing about the state reached before it.
- Words.Bit: `1 << n` is undefined in C++ once n reaches 32. The model takes the shift count modulo 32, so the contracts about distinct bits are stated for the first 32 route criteria only.
- Words.FromInt32 / getValue and setValue: `getValue` returns the `uint32_t` value as an `int`, and `setValue` receives an `int`. The model keeps the value as an unsigned 32-bit `Word` on both sides.
- Loader.LoadAudioHalConfig: the path assertion (line 638) and the allocation assertion (line 647) are not modelled, since a path and a node always exist in the model.
