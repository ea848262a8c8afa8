# ARF placement core in Dafny

ARF is a small augmented-reality app. It lists the `.usdz` assets bundled with
it in a horizontal picker. Tapping an entry enters placement mode. Confirm
anchors a clone of that asset's decoded entity on a detected plane; cancel goes
back to the picker. This project models the two pieces of logic in
`ContentView.swift` that are not framework calls:

- **Asset discovery** (`asset_catalog.dfy`, module `AssetCatalog`). The
  initializer of `models` filters the bundle's directory listing and derives
  each entry's name. `LoadAvailableModels` is that loop, proved equal to the
  specification function `AvailableModels`. The lemmas state which files give
  entries, in what order, and under what names. They also pin down the quirks
  of the code as written:
  - the filter asks for the suffix `usdz` with no dot;
  - the rename removes every `.usdz` in one left-to-right pass, not just the
    trailing extension.
- **Placement state machine**, in two forms:
  - `placement.dfy` (module `Placement`) holds the values: the slots
    `isPlacementEnabled`, `selectedModel` and `modelConfirmedForPlacement`, the
    scene's entities, the four transitions (`Step`) and whole sessions
    (`Run`). The lemmas state what sessions keep invariant and that no anchor
    appears without a confirm.
  - `ar_views.dfy` (module `ArViews`) holds the same machine as objects whose
    button actions and update pass assign the fields in place. Its constructor
    builds the picker entries with `LoadAvailableModels`. The four actions
    (select, cancel, confirm, update) are each tied to `Placement.Step`; the
    helpers `ResetPlacementParameters` and `ArScene.AddAnchor` state their
    whole new state directly.

`wrappers.dfy` holds the `Option` type used for Swift optionals.

One would expect an entry to be named after the file minus its extension. The
code does something different, and the model follows the code:

- a file is kept if it ends in `usdz`, with no dot required;
- every occurrence of `.usdz` is removed, wherever it is (`SuffixWithoutDotIsKept`,
  `InnerExtensionsAreRemoved`, `SinglePassLeavesAnExtension`).

The two agree on names of the form `base.usdz` where `base` has no `.usdz` in
it (`PlainFilenameRoundTrip`).

Inputs that the app gets from the platform are parameters of the model:

- the bundle's resource path (`Option<string>`);
- the directory listing (a function from a path to `Option<seq<string>>`);
- the eventual outcome of each asynchronous entity load (a function from the
  filename `name + ".usdz"` to `Option<EntityId>`).

An entity is an opaque `EntityId`. An anchor is a fresh `Anchor` object that
holds its clone's id.

## Model

| member | source | states |
|---|---|---|
| `AssetCatalog.RemoveOccurrences` | ARF/ARF/ContentView.swift:28 | The result is never longer than the filename. A name with no `.usdz` in it is returned unchanged. A name with one loses at least its length. |
| `AssetCatalog.RemoveOccurrencesCutsLeftmostMatch` | ARF/ARF/ContentView.swift:28 | When the first match in the text starts right after `p`, the result is `p` followed by what the pass makes of the text after the match. So each leftmost match is removed and scanning resumes after it, for every input. |
| `AssetCatalog.AvailableModels` | ARF/ARF/ContentView.swift:26-32 | The specification of the loop. It never yields more entries than there are listed files. |
| `AssetCatalog.ModelFileIndices` | ARF/ARF/ContentView.swift:27 | The indices of the files that pass the `hasSuffix("usdz")` filter. Each passes, they are strictly increasing, and every passing index is among them. |
| `AssetCatalog.AvailableModelsFollowListing` | ARF/ARF/ContentView.swift:26-32 | One entry per passing file, in listing order, and none for any other file. The k-th entry is `Model(modelName:)` of the k-th passing filename with `.usdz` removed. |
| `AssetCatalog.LoadAvailableModels` | ARF/ARF/ContentView.swift:18-33 | No models if the resource path is absent. No models if the directory listing fails. Otherwise the appending loop yields exactly `AvailableModels` of the listing. |
| `AssetCatalog.PlainFilenameRoundTrip` | ARF/ARF/ContentView.swift:27-28 | Take `base + ".usdz"` where `base` has no `.usdz`. It passes the filter and its entry is named exactly `base`. So the file that `Model.init` loads (`modelName + ".usdz"`, Model.swift line 24) is the listed file. |
| `AssetCatalog.SuffixWithoutDotIsKept` | ARF/ARF/ContentView.swift:27-28 | A file named `usdz` passes the filter even without a dot. Its entry is named `usdz`. |
| `AssetCatalog.InnerExtensionsAreRemoved` | ARF/ARF/ContentView.swift:28 | `a.usdz.usdz` gives the entry `a`: every occurrence is removed, not only the trailing one. |
| `AssetCatalog.SinglePassLeavesAnExtension` | ARF/ARF/ContentView.swift:28 | `..usdzusdz` passes the filter and gives the entry `.usdz`. Its name still contains the extension because the removal is a single pass. |
| `ArViews.ContentView.constructor` | ARF/ARF/ContentView.swift:14-33 | The view starts with placement disabled, both slots nil and an empty scene. Its picker entries are the result of the `models` initializer: none if the resource path is absent or the listing fails, otherwise `AvailableModels` of the listing. |
| `ArViews.ContentView.SelectModel` | ARF/ARF/ContentView.swift:101-106 | Offered only while the picker is shown. It sets `selectedModel` to `models[index]` and enables placement. The confirmed slot and the scene are unchanged. |
| `ArViews.ContentView.ResetPlacementParameters` | ARF/ARF/ContentView.swift:159-162 | Disables placement and clears the selection. It touches nothing else. |
| `ArViews.ContentView.CancelPlacement` | ARF/ARF/ContentView.swift:130-133 | Offered only in placement mode. Placement ends disabled with no selection. The confirmed slot and the scene are unchanged. |
| `ArViews.ContentView.ConfirmPlacement` | ARF/ARF/ContentView.swift:143-147 | Offered only in placement mode. The confirmed slot takes the previous selection. Placement ends disabled with no selection. The scene is unchanged. |
| `ArViews.ContentView.UpdateUIView` | ARF/ARF/ContentView.swift:71-86 | With no confirmed model, nothing changes. With one whose entity never loaded, no anchor is added. With one whose entity loaded, exactly one fresh anchor holding that entity is appended and the earlier anchors stay as they were. In every case the confirmed slot ends nil and the other two slots are unchanged. |
| `ArViews.ArScene.AddAnchor` | ARF/ARF/ContentView.swift:79 | The anchor is appended after the scene's existing anchors. |
| `Placement.StepKeepsConsistent` | ARF/ARF/ContentView.swift:39-43 | Any transition the screen offers keeps the invariant "placement enabled iff a model is selected, and both slots hold picker entries". It only ever extends the scene, and only with a picker model's entity. |
| `Placement.RunKeepsConsistent` | ARF/ARF/ContentView.swift:39-86 | Over any session from a consistent state, the invariant holds and the anchors already placed are kept. Every added anchor holds the entity of a picker model. |
| `Placement.AnchorsNeedConfirms` | ARF/ARF/ContentView.swift:72-85 | Over any session, anchors added plus confirmations left pending never exceed the confirms made plus the one pending at the start. A confirmation is never placed twice, given that the confirmed slot is cleared immediately (see Left out). |
| `Placement.AnchorsFromStart` | ARF/ARF/ContentView.swift:14-16 | From the initial state, a session never holds more anchors than it made confirms. |
| `Placement.SelectConfirmUpdatePlaces` | ARF/ARF/ContentView.swift:72-147 | From the picker, selecting entry i, confirming and one update pass append exactly one anchor with that model's entity, or none if it never loaded. The view ends back at the picker with both slots nil. |
| `Placement.SelectCancelRestores` | ARF/ARF/ContentView.swift:101-133 | From the picker with nothing selected, selecting and cancelling restores the exact starting state. Nothing is anchored and nothing is confirmed. |
| `Placement.UpdateIsIdempotent` | ARF/ARF/ContentView.swift:83-85 | A second update pass changes nothing, so a stale confirmation cannot replay, given that the confirmed slot is cleared immediately (see Left out). |

## Left out

- AR session configuration: plane detection, environment texturing, scene reconstruction and `session.run` (ContentView.swift lines 55-70). These are calls into the platform's AR framework.
- The SwiftUI layout: `body` builders, thumbnails, frames, padding, colours and the preview provider. Only the rule "picker iff placement disabled" is kept, as the enabling condition of the actions.
- `FileManager`/`Bundle` I/O. The resource path and the directory listing are parameters.
- All of Model.swift's construction: the thumbnail `UIImage(named:)!`, and the Combine `loadModelAsync`/`sink` load with its logging. The load's eventual outcome is a parameter, and the thumbnail is not modelled.
- The thumbnail's force-unwrap (Model.swift line 22) is not modelled: the model assumes every entry has an image of its name. In the app, an entry with no such image stops the `models` initializer. Entries such as `usdz` (`SuffixWithoutDotIsKept`) or `.usdz` (`SinglePassLeavesAnExtension`) are likely to have no image.
- Swift string semantics: strings here are sequences of Unicode scalars compared literally. Swift's `hasSuffix` compares grapheme clusters under canonical equivalence, and Foundation's `replacingOccurrences(of:with:)` searches non-literally. The model agrees with the source on ASCII names. It can differ on other names; for example, `"\u{600}usdz"` ends in the scalars `usdz`, but its last grapheme is `"\u{600}u"`, so the source drops the file while `IsModelFile` keeps it.
- The order in which loads complete. The model uses the final `modelEntity`; it does not model an update pass that runs before a load finishes.
- `ArViews.ContentView.UpdateUIView`: the clearing of the confirmed slot is deferred with `DispatchQueue.main.async` in the source. Here it happens at the end of the same call, so no update pass can run in between.
- The internals of `AnchorEntity(plane:)` and `clone(recursive:)` (which plane, transforms, child hierarchy). An anchor is a fresh object holding the cloned entity's id.
- The separate `@Binding` views are one object here, because their bindings all refer to `ContentView`'s `@State` storage.
- `print` debug logging.
