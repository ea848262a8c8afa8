/**
 * The views of ContentView.swift as objects whose state their actions update
 * in place. The `@State` slots of `ContentView` are fields of one object; the
 * `@Binding`s through which `ModelPickerView`, `PlacementButtonView` and
 * `ARViewContainer` write them are that object's methods. The `ARView`'s scene
 * is an object of its own, which the update pass adds anchors to.
 */
module ArViews {
  import opened Wrappers
  import opened AssetCatalog
  import Placement

  /** An `AnchorEntity` holding a clone of a model's entity; the clone carries the entity's id. */
  class Anchor {
    const child: EntityId

    constructor (child: EntityId)
      ensures this.child == child
    {
      this.child := child;
    }
  }

  /** The entities the anchors hold, in the order the anchors were added. */
  function Entities(anchors: seq<Anchor>): seq<EntityId> {
    seq(|anchors|, k requires 0 <= k < |anchors| => anchors[k].child)
  }

  /** The scene of the `ARView`. */
  class ArScene {
    var anchors: seq<Anchor>

    constructor ()
      ensures anchors == []
    {
      anchors := [];
    }

    /** `scene.addAnchor` */
    method AddAnchor(anchor: Anchor)
      modifies this
      ensures anchors == old(anchors) + [anchor]
    {
      anchors := anchors + [anchor];
    }
  }

  class ContentView {
    const models: seq<Model>
    const arView: ArScene
    var isPlacementEnabled: bool
    var selectedModel: Option<Model>
    var modelConfirmedForPlacement: Option<Model>

    /** The view's state as a value of the state machine. */
    function State(): Placement.ViewState
      reads this, arView
    {
      Placement.ViewState(isPlacementEnabled, selectedModel, modelConfirmedForPlacement, Entities(arView.anchors))
    }

    ghost predicate Valid()
      reads this, arView
    {
      Placement.Consistent(models, State())
    }

    /**
     * A new view: its picker entries are what the `models` initializer makes
     * of the bundle (see `LoadAvailableModels` for the parameters).
     */
    constructor (
      resourcePath: Option<string>,
      contentsOfDirectory: string -> Option<seq<string>>,
      load: string -> Option<EntityId>)
      ensures Valid() && fresh(arView) && State() == Placement.Initial()
      ensures resourcePath.None? ==> models == []
      ensures resourcePath.Some? && contentsOfDirectory(resourcePath.value).None? ==> models == []
      ensures resourcePath.Some? && contentsOfDirectory(resourcePath.value).Some? ==>
                models == AvailableModels(contentsOfDirectory(resourcePath.value).value, load)
    {
      var availableModels := LoadAvailableModels(resourcePath, contentsOfDirectory, load);
      models := availableModels;
      arView := new ArScene();
      isPlacementEnabled := false;
      selectedModel := None;
      modelConfirmedForPlacement := None;
    }

    /** The action of the picker's button for entry `index`. */
    method SelectModel(index: nat)
      requires Valid() && !isPlacementEnabled && index < |models|
      modifies this
      ensures Valid()
      ensures selectedModel == Some(models[index]) && isPlacementEnabled
      ensures modelConfirmedForPlacement == old(modelConfirmedForPlacement) && unchanged(arView)
      ensures State() == Placement.Step(models, old(State()), Placement.Select(index))
    {
      selectedModel := Some(models[index]);
      isPlacementEnabled := true;
    }

    /** `resetPlacementParameters` */
    method ResetPlacementParameters()
      modifies this
      ensures !isPlacementEnabled && selectedModel == None
      ensures modelConfirmedForPlacement == old(modelConfirmedForPlacement) && unchanged(arView)
    {
      isPlacementEnabled := false;
      selectedModel := None;
    }

    /** The action of the cancel button. */
    method CancelPlacement()
      requires Valid() && isPlacementEnabled
      modifies this
      ensures Valid()
      ensures !isPlacementEnabled && selectedModel == None
      ensures modelConfirmedForPlacement == old(modelConfirmedForPlacement) && unchanged(arView)
      ensures State() == Placement.Step(models, old(State()), Placement.Cancel)
    {
      ResetPlacementParameters();
    }

    /** The action of the confirm button: the selection moves to the confirmed slot. */
    method ConfirmPlacement()
      requires Valid() && isPlacementEnabled
      modifies this
      ensures Valid()
      ensures modelConfirmedForPlacement == old(selectedModel)
      ensures !isPlacementEnabled && selectedModel == None && unchanged(arView)
      ensures State() == Placement.Step(models, old(State()), Placement.Confirm)
    {
      modelConfirmedForPlacement := selectedModel;
      ResetPlacementParameters();
    }

    /**
     * `ARViewContainer.updateUIView`: a confirmed model whose entity loaded is
     * placed, as one new anchor holding a clone of the entity, after the
     * anchors already there; the confirmed slot is then emptied.
     */
    method UpdateUIView()
      requires Valid()
      modifies this, arView
      ensures Valid()
      ensures isPlacementEnabled == old(isPlacementEnabled) && selectedModel == old(selectedModel)
      ensures modelConfirmedForPlacement == None
      ensures old(modelConfirmedForPlacement).None? ==> arView.anchors == old(arView.anchors)
      ensures old(modelConfirmedForPlacement).Some? && old(modelConfirmedForPlacement).value.modelEntity.None? ==>
                arView.anchors == old(arView.anchors)
      ensures old(modelConfirmedForPlacement).Some? && old(modelConfirmedForPlacement).value.modelEntity.Some? ==>
                && |arView.anchors| == |old(arView.anchors)| + 1
                && arView.anchors[..|old(arView.anchors)|] == old(arView.anchors)
                && fresh(arView.anchors[|old(arView.anchors)|])
                && arView.anchors[|old(arView.anchors)|].child == old(modelConfirmedForPlacement).value.modelEntity.value
      ensures State() == Placement.Step(models, old(State()), Placement.Update)
    {
      if modelConfirmedForPlacement.Some? {
        var model := modelConfirmedForPlacement.value;
        if model.modelEntity.Some? {
          var anchorEntity := new Anchor(model.modelEntity.value);
          arView.AddAnchor(anchorEntity);
          assert Entities(arView.anchors) == Entities(old(arView.anchors)) + [model.modelEntity.value];
        }
        modelConfirmedForPlacement := None;
      }
    }
  }
}
