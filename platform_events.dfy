/**
 * The state-changed aggregator: the StatesChanged route criterion whose bits record which
 * route criteria changed since the last commit, the flag that records a change in the
 * audio instance, and the accessors `getValue` / `setValue` that feed it.
 */
module PlatformEvents {
  import opened Wrappers
  import opened Words
  import opened CriterionTypeValues
  import opened Registry

  /** Calls the engine makes on its collaborators, in the order it makes them. */
  datatype Call =
    | WriteLock
    | Unlock
    | CommitStatesChanged(value: Word)   // `setCriterionState()` of the StatesChanged criterion
    | ApplyConfigurations                // the route connector's `applyConfigurations()`
    | ReconsiderRouting(isSynchronous: bool)

  /**
   * The state after construction: the StatesChanged criterion exists, its type is inclusive,
   * the j-th value of the type has code `1 << j`, and no literal appears twice.
   */
  predicate Ready(r: Registry)
  {
    && StatesChanged in r.routeCriteria
    && StatesChanged in r.routeTypes
    && r.routeTypes[StatesChanged].inclusive
    && DistinctBits(r.routeTypes[StatesChanged].values)
  }

  predicate DistinctBits(vs: seq<ValuePair>)
  {
    && (forall j :: 0 <= j < |vs| ==> vs[j].code == Bit(j))
    && (forall i, j :: 0 <= i < j < |vs| ==> vs[i].literal != vs[j].literal)
  }

  /** The aligned registry of the loader is ready once the StatesChanged criterion is inserted. */
  lemma AlignedIsDistinct(vs: seq<ValuePair>, names: set<string>)
    requires OneBitPerName(vs, names)
    ensures DistinctBits(vs)
  {
  }

  /** The current bit mask of the StatesChanged criterion. */
  function StateValue(r: Registry): Word
    requires StatesChanged in r.routeCriteria
  {
    r.routeCriteria[StatesChanged].value
  }

  /** `getNumericalValue` on the StatesChanged type: the code of an event name, if it is a value. */
  function EventCode(r: Registry, name: string): Option<Word>
  {
    if StatesChanged in r.routeTypes then CodeOf(r.routeTypes[StatesChanged], name) else None
  }

  /**
   * `setPlatformStateEvent`: without a StatesChanged criterion nothing happens. Otherwise the
   * event's code (0 when the name is not a value of the type, which also raises the audio
   * flag) is OR-ed into the mask.
   */
  function SetPlatformStateEvent(r: Registry, name: string): (r': Registry)
    ensures StatesChanged !in r.routeCriteria ==> r' == r
    ensures r'.routeTypes == r.routeTypes && r'.routeCriteria.Keys == r.routeCriteria.Keys
    ensures r'.audioCriteria == r.audioCriteria && r'.audioValues == r.audioValues
    ensures r'.parameters == r.parameters && r'.audioTypes == r.audioTypes
    ensures forall n :: n in r.routeCriteria && n != StatesChanged ==> r'.routeCriteria[n] == r.routeCriteria[n]
    ensures Ready(r) ==> Ready(r')
  {
    if StatesChanged !in r.routeCriteria then r
    else
      var sc := r.routeCriteria[StatesChanged];
      var found := EventCode(r, name);
      var eventId := if found.Some? then found.value else 0;
      r.(routeCriteria := r.routeCriteria[StatesChanged := sc.(value := WordOr(sc.value, eventId))],
         audioChanged := r.audioChanged || found.None?)
  }

  /** `hasPlatformStateChanged`: some route bit is pending or the audio instance changed. */
  function HasPlatformStateChanged(r: Registry): bool
    requires StatesChanged in r.routeCriteria
  {
    StateValue(r) != 0 || r.audioChanged
  }

  /** `clearPlatformStateEvents`: the mask goes back to 0 and the audio flag is lowered. */
  function ClearPlatformStateEvents(r: Registry): (r': Registry)
    requires StatesChanged in r.routeCriteria
    ensures StatesChanged in r'.routeCriteria && !HasPlatformStateChanged(r')
    ensures r'.routeTypes == r.routeTypes && r'.routeCriteria.Keys == r.routeCriteria.Keys
    ensures forall n :: n in r.routeCriteria && n != StatesChanged ==> r'.routeCriteria[n] == r.routeCriteria[n]
    ensures r'.parameters == r.parameters && r'.audioCriteria == r.audioCriteria && r'.audioValues == r.audioValues
    ensures r'.audioTypes == r.audioTypes
  {
    var sc := r.routeCriteria[StatesChanged];
    r.(routeCriteria := r.routeCriteria[StatesChanged := sc.(value := 0)], audioChanged := false)
  }

  /**
   * `applyPlatformConfiguration`: the mask is pushed to the route instance, the route
   * configurations are applied, and the events are cleared.
   */
  function ApplyPlatformConfiguration(r: Registry): (res: (Registry, seq<Call>))
    requires StatesChanged in r.routeCriteria
    ensures res.1 == [CommitStatesChanged(StateValue(r)), ApplyConfigurations]
    ensures res.0 == ClearPlatformStateEvents(r)
  {
    (ClearPlatformStateEvents(r), [CommitStatesChanged(StateValue(r)), ApplyConfigurations])
  }

  /** Once the configuration has been applied, no change is pending any more. */
  lemma ApplyClearsChange(r: Registry)
    requires StatesChanged in r.routeCriteria
    ensures var (r', calls) := ApplyPlatformConfiguration(r);
      StatesChanged in r'.routeCriteria && !HasPlatformStateChanged(r') && StateValue(r') == 0 && !r'.audioChanged
  {
  }

  /** An event never clears a bit of the mask, nor the audio flag. */
  lemma {:induction false} EventKeepsBits(r: Registry, name: string, k: nat)
    requires StatesChanged in r.routeCriteria
    ensures var r' := SetPlatformStateEvent(r, name);
      && (HasBit(StateValue(r), k) ==> HasBit(StateValue(r'), k))
      && (r.audioChanged ==> r'.audioChanged)
  {
    var found := EventCode(r, name);
    OrHasBit(StateValue(r), if found.Some? then found.value else 0, k);
  }

  /** The first value of the StatesChanged type with a given literal is the only one. */
  lemma EventCodeOfValue(r: Registry, j: nat)
    requires Ready(r)
    requires j < |r.routeTypes[StatesChanged].values|
    ensures EventCode(r, r.routeTypes[StatesChanged].values[j].literal) == Some(Bit(j))
  {
    var vs := r.routeTypes[StatesChanged].values;
    var i := IndexOf(vs, vs[j].literal);
    assert i.Some?;
  }

  /**
   * The event of the j-th route criterion (one of the first 32) sets bit j of the mask and
   * no other, and leaves the audio flag as it was.
   */
  lemma KnownEventSetsItsBit(r: Registry, j: nat)
    requires Ready(r)
    requires j < |r.routeTypes[StatesChanged].values| && j < 32
    ensures var r' := SetPlatformStateEvent(r, r.routeTypes[StatesChanged].values[j].literal);
      && (forall k :: HasBit(StateValue(r'), k) <==> HasBit(StateValue(r), k) || k == j)
      && r'.audioChanged == r.audioChanged
  {
    var name := r.routeTypes[StatesChanged].values[j].literal;
    var r' := SetPlatformStateEvent(r, name);
    EventCodeOfValue(r, j);
    forall k ensures HasBit(StateValue(r'), k) <==> HasBit(StateValue(r), k) || k == j {
      OrHasBit(StateValue(r), Bit(j), k);
      BitIsSingle(j, k);
    }
  }

  /** An event that is not a route criterion leaves the mask alone and raises the audio flag. */
  lemma UnknownEventSetsFlag(r: Registry, name: string)
    requires StatesChanged in r.routeCriteria && EventCode(r, name).None?
    ensures SetPlatformStateEvent(r, name) == r.(audioChanged := true)
  {
    var sc := r.routeCriteria[StatesChanged];
    assert r.routeCriteria[StatesChanged := sc] == r.routeCriteria;
  }

  /** After any event on a ready state a change is pending. */
  lemma {:induction false} EventMarksChange(r: Registry, name: string)
    requires Ready(r)
    ensures HasPlatformStateChanged(SetPlatformStateEvent(r, name))
  {
    var found := EventCode(r, name);
    if found.Some? {
      var vs := r.routeTypes[StatesChanged].values;
      var i := IndexOf(vs, name);
      assert found.value == Bit(i.value);
      OrZero(StateValue(r), found.value);
    }
  }

  /** A pending change survives further events. */
  lemma {:induction false} EventKeepsChange(r: Registry, name: string)
    requires StatesChanged in r.routeCriteria && HasPlatformStateChanged(r)
    ensures HasPlatformStateChanged(SetPlatformStateEvent(r, name))
  {
    var found := EventCode(r, name);
    OrZero(StateValue(r), if found.Some? then found.value else 0);
  }

  /** What the stream interface reports for an audio criterion: its stored value, else 0. */
  function AudioValue(r: Registry, name: string): Word
  {
    if name in r.audioValues then r.audioValues[name] else 0
  }

  /** `getValue`: a route criterion first, then an audio criterion, else 0. */
  function GetValue(r: Registry, name: string): Word
  {
    if name in r.routeCriteria then r.routeCriteria[name].value
    else if name in r.audioCriteria then AudioValue(r, name)
    else 0
  }

  /**
   * `setValue`: a route criterion whose value differs is set and its event recorded, then an
   * audio criterion of the same name whose value differs is set and its event recorded.
   */
  function SetValue(r: Registry, value: Word, name: string): (r': Registry)
    ensures r'.routeTypes == r.routeTypes && r'.routeCriteria.Keys == r.routeCriteria.Keys
    ensures r'.audioCriteria == r.audioCriteria && r'.parameters == r.parameters && r'.audioTypes == r.audioTypes
    ensures forall n :: n in r.routeCriteria && n != name && n != StatesChanged ==> r'.routeCriteria[n] == r.routeCriteria[n]
    ensures r.audioValues.Keys <= r'.audioValues.Keys <= r.audioValues.Keys + {name}
    ensures forall n :: n in r.audioValues && n != name ==> r'.audioValues[n] == r.audioValues[n]
    ensures Ready(r) ==> Ready(r')
  {
    var r1 :=
      if name in r.routeCriteria && r.routeCriteria[name].value != value then
        SetPlatformStateEvent(r.(routeCriteria := r.routeCriteria[name := r.routeCriteria[name].(value := value)]), name)
      else r;
    if name in r1.audioCriteria && AudioValue(r1, name) != value then
      SetPlatformStateEvent(r1.(audioValues := r1.audioValues[name := value]), name)
    else r1
  }

  /** A value set on a route criterion other than StatesChanged reads back. */
  lemma SetGetRoute(r: Registry, value: Word, name: string)
    requires name in r.routeCriteria && name != StatesChanged
    ensures GetValue(SetValue(r, value, name), name) == value
  {
  }

  /** A value set on an audio criterion that is no route criterion reads back. */
  lemma SetGetAudio(r: Registry, value: Word, name: string)
    requires name !in r.routeCriteria && name in r.audioCriteria
    ensures GetValue(SetValue(r, value, name), name) == value
  {
  }

  /** A name that is neither a route nor an audio criterion is ignored. */
  lemma SetValueIgnoresUnknown(r: Registry, value: Word, name: string)
    requires name !in r.routeCriteria && name !in r.audioCriteria
    ensures SetValue(r, value, name) == r && GetValue(r, name) == 0
  {
  }

  /** Setting the value a criterion already holds records no event. */
  lemma SetValueUnchanged(r: Registry, value: Word, name: string)
    requires name in r.routeCriteria ==> r.routeCriteria[name].value == value
    requires name in r.audioCriteria ==> AudioValue(r, name) == value
    ensures SetValue(r, value, name) == r
  {
  }

  /** Setting a different value on a ready state leaves a change pending. */
  lemma {:induction false} SetValueMarksChange(r: Registry, value: Word, name: string)
    requires Ready(r)
    requires (name in r.routeCriteria && r.routeCriteria[name].value != value)
          || (name in r.audioCriteria && AudioValue(r, name) != value)
    ensures HasPlatformStateChanged(SetValue(r, value, name))
  {
    var r1 :=
      if name in r.routeCriteria && r.routeCriteria[name].value != value then
        SetPlatformStateEvent(r.(routeCriteria := r.routeCriteria[name := r.routeCriteria[name].(value := value)]), name)
      else r;
    if name in r.routeCriteria && r.routeCriteria[name].value != value {
      EventMarksChange(r.(routeCriteria := r.routeCriteria[name := r.routeCriteria[name].(value := value)]), name);
      if name in r1.audioCriteria && AudioValue(r1, name) != value {
        EventKeepsChange(r1.(audioValues := r1.audioValues[name := value]), name);
      }
    } else {
      EventMarksChange(r1.(audioValues := r1.audioValues[name := value]), name);
    }
  }
}
