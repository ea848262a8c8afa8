/**
 * The placement state machine of ContentView.swift, as values: the three state
 * slots of `ContentView` plus the entities anchored in the AR scene, the four
 * transitions (picker button, cancel button, confirm button, the AR view's
 * update), and what whole sessions of them can and cannot do.
 */
module Placement {
  import opened Wrappers
  import opened AssetCatalog

  datatype ViewState = ViewState(
    isPlacementEnabled: bool,
    selectedModel: Option<Model>,
    modelConfirmedForPlacement: Option<Model>,
    scene: seq<EntityId>)

  datatype Action =
    | Select(index: nat)  // tapping the picker entry `index`
    | Cancel              // the cancel button
    | Confirm             // the confirm button
    | Update              // the AR view's update pass

  /** The state `ContentView` starts in: nothing selected or confirmed, an empty scene. */
  function Initial(): ViewState {
    ViewState(false, None, None, [])
  }

  /**
   * Which actions the screen offers: the picker exactly when placement is
   * disabled, the cancel and confirm buttons exactly when it is enabled; the
   * update pass runs whatever is on screen.
   */
  predicate Enabled(models: seq<Model>, s: ViewState, a: Action) {
    match a
    case Select(i) => !s.isPlacementEnabled && i < |models|
    case Cancel => s.isPlacementEnabled
    case Confirm => s.isPlacementEnabled
    case Update => true
  }

  /** `resetPlacementParameters`: back to the picker with nothing selected. */
  function ResetPlacement(s: ViewState): ViewState {
    s.(isPlacementEnabled := false, selectedModel := None)
  }

  /** The anchors placing `m` adds: one clone of its entity, or none if it never loaded. */
  function Placed(m: Model): seq<EntityId> {
    match m.modelEntity
    case Some(e) => [e]
    case None => []
  }

  function Step(models: seq<Model>, s: ViewState, a: Action): ViewState
    requires Enabled(models, s, a)
  {
    match a
    case Select(i) => s.(selectedModel := Some(models[i]), isPlacementEnabled := true)
    case Cancel => ResetPlacement(s)
    case Confirm => ResetPlacement(s.(modelConfirmedForPlacement := s.selectedModel))
    case Update =>
      match s.modelConfirmedForPlacement
      case None => s
      case Some(m) => s.(scene := s.scene + Placed(m), modelConfirmedForPlacement := None)
  }

  /** `actions` can be performed one after the other from `s`. */
  predicate Session(models: seq<Model>, s: ViewState, actions: seq<Action>)
    decreases |actions|
  {
    actions == [] || (Enabled(models, s, actions[0]) && Session(models, Step(models, s, actions[0]), actions[1..]))
  }

  function Run(models: seq<Model>, s: ViewState, actions: seq<Action>): ViewState
    requires Session(models, s, actions)
    decreases |actions|
  {
    if actions == [] then s else Run(models, Step(models, s, actions[0]), actions[1..])
  }

  /**
   * The invariant the screen keeps: placement is enabled exactly when a model
   * is selected, and the selected and confirmed models are picker entries.
   */
  predicate Consistent(models: seq<Model>, s: ViewState) {
    && (s.isPlacementEnabled <==> s.selectedModel.Some?)
    && (s.selectedModel.Some? ==> s.selectedModel.value in models)
    && (s.modelConfirmedForPlacement.Some? ==> s.modelConfirmedForPlacement.value in models)
  }

  /** 1 while a confirmed model waits for the update pass, else 0. */
  function Pending(s: ViewState): nat {
    if s.modelConfirmedForPlacement.Some? then 1 else 0
  }

  function Confirms(actions: seq<Action>): (n: nat)
    ensures n <= |actions|
  {
    if actions == [] then 0 else (if actions[0].Confirm? then 1 else 0) + Confirms(actions[1..])
  }

  /** `e` is the entity of one of the picker's models. */
  predicate IsEntityOf(models: seq<Model>, e: EntityId) {
    exists i :: 0 <= i < |models| && models[i].modelEntity == Some(e)
  }

  lemma StepKeepsConsistent(models: seq<Model>, s: ViewState, a: Action)
    requires Consistent(models, s) && Enabled(models, s, a)
    ensures Consistent(models, Step(models, s, a))
    ensures s.scene <= Step(models, s, a).scene
    ensures forall k :: |s.scene| <= k < |Step(models, s, a).scene| ==> IsEntityOf(models, Step(models, s, a).scene[k])
  {
  }

  /**
   * Over any session from a consistent state the invariant holds, the anchors
   * already in the scene stay as they were, and every anchor added holds the
   * entity of one of the picker's models.
   */
  lemma {:induction false} RunKeepsConsistent(models: seq<Model>, s: ViewState, actions: seq<Action>)
    requires Consistent(models, s) && Session(models, s, actions)
    ensures Consistent(models, Run(models, s, actions))
    ensures s.scene <= Run(models, s, actions).scene
    ensures forall k :: |s.scene| <= k < |Run(models, s, actions).scene| ==>
              IsEntityOf(models, Run(models, s, actions).scene[k])
    decreases |actions|
  {
    if actions != [] {
      var t := Step(models, s, actions[0]);
      StepKeepsConsistent(models, s, actions[0]);
      RunKeepsConsistent(models, t, actions[1..]);
    }
  }

  /**
   * No stale replay: every anchor a session adds is paid for by a confirm in
   * it, or by the one confirmation pending at its start.
   */
  lemma {:induction false} AnchorsNeedConfirms(models: seq<Model>, s: ViewState, actions: seq<Action>)
    requires Session(models, s, actions)
    ensures |Run(models, s, actions).scene| + Pending(Run(models, s, actions))
            <= |s.scene| + Pending(s) + Confirms(actions)
    decreases |actions|
  {
    if actions != [] {
      AnchorsNeedConfirms(models, Step(models, s, actions[0]), actions[1..]);
    }
  }

  /** From the start, a session holds no more anchors than it made confirms. */
  lemma AnchorsFromStart(models: seq<Model>, actions: seq<Action>)
    requires Session(models, Initial(), actions)
    ensures |Run(models, Initial(), actions).scene| <= Confirms(actions)
  {
    AnchorsNeedConfirms(models, Initial(), actions);
  }

  /**
   * Selecting entry i, confirming, and letting the view update places exactly
   * one clone of that model's entity (none if it never loaded) and returns to
   * the picker with both slots empty.
   */
  lemma SelectConfirmUpdatePlaces(models: seq<Model>, s: ViewState, i: nat)
    requires !s.isPlacementEnabled && i < |models|
    ensures Session(models, s, [Select(i), Confirm, Update])
    ensures Run(models, s, [Select(i), Confirm, Update])
            == s.(selectedModel := None, modelConfirmedForPlacement := None, scene := s.scene + Placed(models[i]))
  {
    var s1 := Step(models, s, Select(i));
    var s2 := Step(models, s1, Confirm);
    var s3 := Step(models, s2, Update);
    assert [Update][1..] == [];
    assert Session(models, s2, [Update]) && Run(models, s2, [Update]) == s3;
    assert [Confirm, Update][1..] == [Update];
    assert Session(models, s1, [Confirm, Update]) && Run(models, s1, [Confirm, Update]) == s3;
    assert [Select(i), Confirm, Update][1..] == [Confirm, Update];
  }

  /**
   * Selecting and cancelling from the picker with nothing selected gets back
   * the state it started from: nothing is anchored and nothing confirmed.
   */
  lemma SelectCancelRestores(models: seq<Model>, s: ViewState, i: nat)
    requires !s.isPlacementEnabled && s.selectedModel == None && i < |models|
    ensures Session(models, s, [Select(i), Cancel])
    ensures Run(models, s, [Select(i), Cancel]) == s
  {
    var s1 := Step(models, s, Select(i));
    assert [Cancel][1..] == [];
    assert Session(models, s1, [Cancel]) && Run(models, s1, [Cancel]) == Step(models, s1, Cancel);
    assert [Select(i), Cancel][1..] == [Cancel];
  }

  /** A second update pass finds the confirmed slot empty and changes nothing. */
  lemma UpdateIsIdempotent(models: seq<Model>, s: ViewState)
    ensures Step(models, Step(models, s, Update), Update) == Step(models, s, Update)
  {
  }
}
