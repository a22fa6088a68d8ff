/**
 * `setParameters`: the key/value pairs received from Android are offered to every
 * parameter in registration order, conversion failures are counted, and the platform
 * configuration is committed and routing reconsidered only when something changed.
 */
module Sync {
  import opened Registry
  import opened PlatformEvents

  /**
   * What a parameter reports once it is handed the value of its key: nothing changed, the
   * value did not convert, or the named criterion changed (its event is then recorded).
   */
  datatype Outcome = Unchanged | ConversionError | Changed(event: string)

  /** The parameter's own conversion and store, which is not part of this model. */
  type Dispatch = (Parameter, string) -> Outcome

  /** `android::OK` and `android::BAD_VALUE`. */
  datatype Status = Success | BadValue

  /** The result of one call: the new state, the status returned, and the calls made. */
  datatype SyncResult = SyncResult(state: Registry, status: Status, calls: seq<Call>)

  /** The parameter `p` handed the value of its key, when that key is among the pairs. */
  function Offer(r: Registry, errors: nat, p: Parameter, pairs: map<string, string>, dispatch: Dispatch): (Registry, nat)
  {
    if p.key !in pairs then (r, errors)
    else
      match dispatch(p, pairs[p.key])
      case Unchanged => (r, errors)
      case ConversionError => (r, errors + 1)
      case Changed(event) => (SetPlatformStateEvent(r, event), errors)
  }

  /** The parameters offered the pairs in order: the state after their events and the error count. */
  function OfferAll(r: Registry, ps: seq<Parameter>, pairs: map<string, string>, dispatch: Dispatch): (res: (Registry, nat))
    ensures res.0.routeCriteria.Keys == r.routeCriteria.Keys
  {
    if ps == [] then (r, 0)
    else
      var (r1, errors) := OfferAll(r, ps[..|ps| - 1], pairs, dispatch);
      Offer(r1, errors, ps[|ps| - 1], pairs, dispatch)
  }

  /** One more parameter, offered from where the prefix left off. */
  lemma OfferAllStep(r: Registry, ps: seq<Parameter>, i: nat, pairs: map<string, string>, dispatch: Dispatch)
    requires i < |ps|
    ensures OfferAll(r, ps[..i + 1], pairs, dispatch)
      == Offer(OfferAll(r, ps[..i], pairs, dispatch).0, OfferAll(r, ps[..i], pairs, dispatch).1, ps[i], pairs, dispatch)
  {
    assert ps[..i + 1][..i] == ps[..i];
  }

  /** Parameter `p` reports a conversion failure for the value of its key. */
  predicate Fails(p: Parameter, pairs: map<string, string>, dispatch: Dispatch)
  {
    p.key in pairs && dispatch(p, pairs[p.key]).ConversionError?
  }

  /** Parameter `p` reports a changed criterion for the value of its key. */
  predicate Reports(p: Parameter, pairs: map<string, string>, dispatch: Dispatch)
  {
    p.key in pairs && dispatch(p, pairs[p.key]).Changed?
  }

  /** The keys no parameter claims; they are only logged as unhandled. */
  function Unhandled(pairs: map<string, string>, ps: seq<Parameter>): set<string>
  {
    set k | k in pairs.Keys && forall i :: 0 <= i < |ps| ==> ps[i].key != k
  }

  /**
   * `setParameters` under the write lock: offer the pairs, derive the status from the error
   * count, and, when a change is pending, apply the configuration, release the lock and
   * ask for routing to be reconsidered.
   */
  function SetParameters(r: Registry, pairs: map<string, string>, isSynchronous: bool, dispatch: Dispatch): (res: SyncResult)
    requires StatesChanged in r.routeCriteria
    ensures StatesChanged in res.state.routeCriteria && !HasPlatformStateChanged(res.state)
  {
    var (r1, errors) := OfferAll(r, r.parameters, pairs, dispatch);
    var (r2, calls) := ApplyIfChanged(r1, isSynchronous);
    SyncResult(r2, if errors == 0 then Success else BadValue, [WriteLock] + calls)
  }

  /**
   * The end of a `setParameters` call, with the lock held: a pending change is applied before the
   * lock is released and routing reconsidered; without one the lock is only released.
   */
  function ApplyIfChanged(r: Registry, isSynchronous: bool): (res: (Registry, seq<Call>))
    requires StatesChanged in r.routeCriteria
    ensures StatesChanged in res.0.routeCriteria && !HasPlatformStateChanged(res.0)
    ensures |res.1| > 0 && res.1[|res.1| - 1] == if HasPlatformStateChanged(r) then ReconsiderRouting(isSynchronous) else Unlock
  {
    if !HasPlatformStateChanged(r) then (r, [Unlock])
    else
      var (r2, applied) := ApplyPlatformConfiguration(r);
      (r2, applied + [Unlock, ReconsiderRouting(isSynchronous)])
  }

  /** The error count is 0 exactly when no parameter fails to convert its value. */
  lemma {:induction false} NoErrorsIff(r: Registry, ps: seq<Parameter>, pairs: map<string, string>, dispatch: Dispatch)
    ensures OfferAll(r, ps, pairs, dispatch).1 == 0 <==> forall i :: 0 <= i < |ps| ==> !Fails(ps[i], pairs, dispatch)
  {
    if ps != [] {
      var n := |ps| - 1;
      NoErrorsIff(r, ps[..n], pairs, dispatch);
      assert forall i :: 0 <= i < n ==> ps[..n][i] == ps[i];
    }
  }

  /** The status is OK exactly when every conversion succeeded. */
  lemma StatusIff(r: Registry, pairs: map<string, string>, isSynchronous: bool, dispatch: Dispatch)
    requires StatesChanged in r.routeCriteria
    ensures SetParameters(r, pairs, isSynchronous, dispatch).status == Success <==>
      forall i :: 0 <= i < |r.parameters| ==> !Fails(r.parameters[i], pairs, dispatch)
  {
    NoErrorsIff(r, r.parameters, pairs, dispatch);
  }

  /** Two sets of pairs that agree on the keys of the parameters give the same outcome. */
  predicate AgreeOn(ps: seq<Parameter>, a: map<string, string>, b: map<string, string>)
  {
    forall i :: 0 <= i < |ps| ==>
      (ps[i].key in a <==> ps[i].key in b) && (ps[i].key in a ==> a[ps[i].key] == b[ps[i].key])
  }

  lemma {:induction false} OfferAllAgree(r: Registry, ps: seq<Parameter>, a: map<string, string>, b: map<string, string>, dispatch: Dispatch)
    requires AgreeOn(ps, a, b)
    ensures OfferAll(r, ps, a, dispatch) == OfferAll(r, ps, b, dispatch)
  {
    if ps != [] {
      var n := |ps| - 1;
      assert AgreeOn(ps[..n], a, b) by {
        assert forall i :: 0 <= i < n ==> ps[..n][i] == ps[i];
      }
      OfferAllAgree(r, ps[..n], a, b, dispatch);
    }
  }

  /** Keys that no parameter claims change neither the state, nor the status, nor the calls. */
  lemma UnhandledKeysIgnored(r: Registry, pairs: map<string, string>, extra: map<string, string>, isSynchronous: bool, dispatch: Dispatch)
    requires StatesChanged in r.routeCriteria
    requires forall k :: k in extra ==> k in Unhandled(pairs + extra, r.parameters)
    ensures SetParameters(r, pairs + extra, isSynchronous, dispatch) == SetParameters(r, pairs - extra.Keys, isSynchronous, dispatch)
  {
    var ps := r.parameters;
    forall i | 0 <= i < |ps|
      ensures (ps[i].key in pairs + extra <==> ps[i].key in pairs - extra.Keys)
      ensures ps[i].key in pairs + extra ==> (pairs + extra)[ps[i].key] == (pairs - extra.Keys)[ps[i].key]
    {
      if ps[i].key in extra {
        assert false;
      }
    }
    OfferAllAgree(r, ps, pairs + extra, pairs - extra.Keys, dispatch);
  }

  /**
   * Routing is reconsidered exactly when a change is pending after the parameters have been
   * offered. The calls are then: lock, commit of the mask, apply, unlock, and only then the
   * single request to reconsider routing; otherwise just lock and unlock.
   */
  lemma CallOrder(r: Registry, pairs: map<string, string>, isSynchronous: bool, dispatch: Dispatch)
    requires StatesChanged in r.routeCriteria
    ensures var r1 := OfferAll(r, r.parameters, pairs, dispatch).0;
      var calls := SetParameters(r, pairs, isSynchronous, dispatch).calls;
      && StatesChanged in r1.routeCriteria
      && (HasPlatformStateChanged(r1) ==>
            calls == [WriteLock, CommitStatesChanged(StateValue(r1)), ApplyConfigurations, Unlock, ReconsiderRouting(isSynchronous)])
      && (!HasPlatformStateChanged(r1) ==> calls == [WriteLock, Unlock])
      && (ReconsiderRouting(isSynchronous) in calls <==> HasPlatformStateChanged(r1))
  {
  }

  /** With no parameter reporting a change, the state is the one before the call. */
  lemma {:induction false} QuietOfferKeepsState(r: Registry, ps: seq<Parameter>, pairs: map<string, string>, dispatch: Dispatch)
    requires forall i :: 0 <= i < |ps| ==> !Reports(ps[i], pairs, dispatch)
    ensures OfferAll(r, ps, pairs, dispatch).0 == r
  {
    if ps != [] {
      var n := |ps| - 1;
      assert forall i :: 0 <= i < n ==> ps[..n][i] == ps[i];
      QuietOfferKeepsState(r, ps[..n], pairs, dispatch);
    }
  }

  /** Starting clean, a call in which no parameter reports a change notifies nobody. */
  lemma QuietCallDoesNotNotify(r: Registry, pairs: map<string, string>, isSynchronous: bool, dispatch: Dispatch)
    requires StatesChanged in r.routeCriteria && !HasPlatformStateChanged(r)
    requires forall i :: 0 <= i < |r.parameters| ==> !Reports(r.parameters[i], pairs, dispatch)
    ensures SetParameters(r, pairs, isSynchronous, dispatch).calls == [WriteLock, Unlock]
    ensures SetParameters(r, pairs, isSynchronous, dispatch).state == r
  {
    QuietOfferKeepsState(r, r.parameters, pairs, dispatch);
  }

  /** Once a change is pending, offering more parameters keeps it pending. */
  lemma {:induction false} OfferKeepsChange(r: Registry, ps: seq<Parameter>, pre: seq<Parameter>, pairs: map<string, string>, dispatch: Dispatch)
    requires StatesChanged in r.routeCriteria
    requires |pre| <= |ps| && pre == ps[..|pre|]
    requires HasPlatformStateChanged(OfferAll(r, pre, pairs, dispatch).0)
    ensures HasPlatformStateChanged(OfferAll(r, ps, pairs, dispatch).0)
    decreases |ps| - |pre|
  {
    if |pre| < |ps| {
      var next := ps[..|pre| + 1];
      assert next[..|pre|] == pre;
      var (r1, errors) := OfferAll(r, pre, pairs, dispatch);
      var p := ps[|pre|];
      if p.key in pairs && dispatch(p, pairs[p.key]).Changed? {
        EventKeepsChange(r1, dispatch(p, pairs[p.key]).event);
      }
      OfferKeepsChange(r, ps, next, pairs, dispatch);
    } else {
      assert pre == ps;
    }
  }

  /** On a ready state, offering a parameter that reports a change leaves a change pending. */
  lemma {:induction false} ReportMarksChange(r: Registry, ps: seq<Parameter>, pairs: map<string, string>, dispatch: Dispatch)
    requires Ready(r) && ps != [] && Reports(ps[|ps| - 1], pairs, dispatch)
    ensures HasPlatformStateChanged(OfferAll(r, ps, pairs, dispatch).0)
  {
    var n := |ps| - 1;
    var r1 := OfferAll(r, ps[..n], pairs, dispatch).0;
    OfferKeepsReady(r, ps[..n], pairs, dispatch);
    EventMarksChange(r1, dispatch(ps[n], pairs[ps[n].key]).event);
  }

  lemma {:induction false} OfferKeepsReady(r: Registry, ps: seq<Parameter>, pairs: map<string, string>, dispatch: Dispatch)
    requires Ready(r)
    ensures Ready(OfferAll(r, ps, pairs, dispatch).0)
  {
    if ps != [] {
      OfferKeepsReady(r, ps[..|ps| - 1], pairs, dispatch);
    }
  }

  /**
   * On a ready state, when some parameter reports a change, the configuration is committed
   * and routing reconsidered once, with the caller's synchronous flag.
   */
  lemma ReportedChangeNotifies(r: Registry, pairs: map<string, string>, isSynchronous: bool, dispatch: Dispatch, i: nat)
    requires Ready(r)
    requires i < |r.parameters| && Reports(r.parameters[i], pairs, dispatch)
    ensures var calls := SetParameters(r, pairs, isSynchronous, dispatch).calls;
      |calls| == 5 && calls[2] == ApplyConfigurations && calls[4] == ReconsiderRouting(isSynchronous)
  {
    var ps := r.parameters;
    assert ps[..i + 1][i] == ps[i];
    ReportMarksChange(r, ps[..i + 1], pairs, dispatch);
    OfferKeepsChange(r, ps, ps[..i + 1], pairs, dispatch);
  }
}
