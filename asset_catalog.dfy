/**
 * Discovery of the placeable assets: the initializer of `ContentView.models`,
 * which turns the bundle's directory listing into the picker's entries, and the
 * `Model` record of Model.swift those entries are.
 */
module AssetCatalog {
  import opened Wrappers

  /** Opaque handle of a decoded renderable (a RealityKit `ModelEntity`). */
  datatype EntityId = EntityId(handle: nat)

  /**
   * An asset reference (`Model`): its display name and the renderable handle
   * that the asynchronous load eventually stored, if it succeeded. The
   * thumbnail image is not part of this model.
   */
  datatype Model = Model(modelName: string, modelEntity: Option<EntityId>)

  /** The suffix a listed filename must end with to become a picker entry. */
  const AssetSuffix: string := "usdz"

  /** The text removed from a filename to obtain the entry's name, and appended to load it. */
  const AssetExtension: string := ".usdz"

  predicate HasSuffix(s: string, suffix: string) {
    |suffix| <= |s| && s[|s| - |suffix|..] == suffix
  }

  predicate HasPrefix(s: string, prefix: string) {
    |prefix| <= |s| && s[..|prefix|] == prefix
  }

  /** `target` occurs in `s` starting at index `i`. */
  predicate OccursAt(s: string, target: string, i: int) {
    0 <= i && i + |target| <= |s| && s[i..i + |target|] == target
  }

  predicate Contains(s: string, target: string) {
    exists i :: 0 <= i <= |s| && OccursAt(s, target, i)
  }

  lemma OccursAtTail(s: string, target: string, i: nat)
    requires s != []
    ensures OccursAt(s[1..], target, i) <==> OccursAt(s, target, i + 1)
  {
  }

  /** Away from a match at its head, `s` contains `target` iff its tail does. */
  lemma ContainsTail(s: string, target: string)
    requires s != [] && !HasPrefix(s, target)
    ensures Contains(s, target) <==> Contains(s[1..], target)
  {
    if Contains(s, target) {
      var i :| 0 <= i <= |s| && OccursAt(s, target, i);
      assert i != 0;
      OccursAtTail(s, target, i - 1);
    }
    if Contains(s[1..], target) {
      var i :| 0 <= i <= |s| - 1 && OccursAt(s[1..], target, i);
      OccursAtTail(s, target, i);
    }
  }

  /**
   * `s` with the occurrences of `target` removed, as Foundation's
   * `replacingOccurrences(of:with:)` with an empty replacement does it: one
   * left-to-right pass, each match removed and scanning resumed after it.
   * What is left is not searched again, so text that only becomes a match once
   * a match inside it is gone stays (see `SinglePassLeavesAnExtension`).
   */
  function RemoveOccurrences(s: string, target: string): (r: string)
    requires target != []
    ensures |r| <= |s|
    ensures !Contains(s, target) ==> r == s
    ensures Contains(s, target) ==> |r| <= |s| - |target|
    decreases |s|
  {
    if s == [] then []
    else if HasPrefix(s, target) then
      assert OccursAt(s, target, 0);
      RemoveOccurrences(s[|target|..], target)
    else
      ContainsTail(s, target);
      [s[0]] + RemoveOccurrences(s[1..], target)
  }

  /** A match at the head is dropped and scanning resumes after it. */
  lemma RemoveOccurrencesAtMatch(target: string, q: string)
    requires target != []
    ensures RemoveOccurrences(target + q, target) == RemoveOccurrences(q, target)
  {
    var s := target + q;
    assert HasPrefix(s, target);
    assert s[|target|..] == q;
  }

  /** Away from a match, the head character is kept and scanning goes on from the next one. */
  lemma RemoveOccurrencesKeepsHead(s: string, target: string)
    requires target != [] && s != [] && !OccursAt(s, target, 0)
    ensures RemoveOccurrences(s, target) == [s[0]] + RemoveOccurrences(s[1..], target)
  {
    assert !HasPrefix(s, target);
  }

  /**
   * The pass cuts out the leftmost match and resumes scanning right after it:
   * when `target` first occurs in `p + target + q` just after `p`, the text
   * before the match is kept as it is, the match is dropped, and the rest is
   * what the pass makes of `q`. With the clause that text holding no match
   * comes back unchanged, this determines the whole result.
   */
  lemma {:induction false} RemoveOccurrencesCutsLeftmostMatch(p: string, target: string, q: string)
    requires target != []
    requires forall j :: 0 <= j < |p| ==> !OccursAt(p + target + q, target, j)
    ensures RemoveOccurrences(p + target + q, target) == p + RemoveOccurrences(q, target)
    decreases |p|
  {
    if p == [] {
      assert p + target + q == target + q;
      RemoveOccurrencesAtMatch(target, q);
    } else {
      NoEarlierMatchInTail(p, target, q);
      RemoveOccurrencesCutsLeftmostMatch(p[1..], target, q);
      KeptHeadBeforeMatch(p, target, q);
    }
  }

  /** One step of the pass before the match: the head of `p` is kept. */
  lemma KeptHeadBeforeMatch(p: string, target: string, q: string)
    requires target != [] && p != []
    requires !OccursAt(p + target + q, target, 0)
    requires RemoveOccurrences(p[1..] + target + q, target) == p[1..] + RemoveOccurrences(q, target)
    ensures RemoveOccurrences(p + target + q, target) == p + RemoveOccurrences(q, target)
  {
    var s, r := p + target + q, RemoveOccurrences(q, target);
    RemoveOccurrencesKeepsHead(s, target);
    HeadAndTail(p, target, q);
    HeadAndTail(p, r, []);
    assert p + r + [] == p + r;
    assert p[1..] + r + [] == p[1..] + r;
  }

  /** Splitting off the head of `p` in a three-part concatenation. */
  lemma HeadAndTail(p: string, u: string, v: string)
    requires p != []
    ensures (p + u + v)[0] == p[0] && (p + u + v)[1..] == p[1..] + u + v
    ensures [p[0]] + (p[1..] + u + v) == p + u + v
  {
  }

  /** Dropping the head character keeps "no match before the one after `p`". */
  lemma NoEarlierMatchInTail(p: string, target: string, q: string)
    requires p != []
    requires forall j :: 0 <= j < |p| ==> !OccursAt(p + target + q, target, j)
    ensures !OccursAt(p + target + q, target, 0)
    ensures forall j :: 0 <= j < |p| - 1 ==> !OccursAt(p[1..] + target + q, target, j)
  {
    var s := p + target + q;
    assert s[1..] == p[1..] + target + q;
    forall j | 0 <= j < |p| - 1
      ensures !OccursAt(p[1..] + target + q, target, j)
    {
      OccursAtTail(s, target, j);
    }
  }

  /** The filter of the loop: the filename ends with "usdz" (no dot is required). */
  predicate IsModelFile(filename: string) {
    HasSuffix(filename, AssetSuffix)
  }

  /** The entry's name: the filename with every ".usdz" removed. */
  function ModelName(filename: string): string {
    RemoveOccurrences(filename, AssetExtension)
  }

  /**
   * `Model(modelName:)`: the record whose entity is what loading the file
   * `modelName + ".usdz"` eventually yields; `load` stands for the outcome of
   * that asynchronous load (None when it failed).
   */
  function NewModel(modelName: string, load: string -> Option<EntityId>): Model {
    Model(modelName, load(modelName + AssetExtension))
  }

  /** The entries the listing `files` produces, in listing order. */
  function AvailableModels(files: seq<string>, load: string -> Option<EntityId>): (models: seq<Model>)
    ensures |models| <= |files|
  {
    if files == [] then []
    else
      var last := files[|files| - 1];
      AvailableModels(files[..|files| - 1], load)
        + (if IsModelFile(last) then [NewModel(ModelName(last), load)] else [])
  }

  /**
   * The indices of the listing's model files, in increasing order: exactly the
   * indices whose filename passes the filter, each once.
   */
  ghost function ModelFileIndices(files: seq<string>): (ix: seq<nat>)
    ensures forall k :: 0 <= k < |ix| ==> ix[k] < |files| && IsModelFile(files[ix[k]])
    ensures forall k, l :: 0 <= k < l < |ix| ==> ix[k] < ix[l]
    ensures forall j :: 0 <= j < |files| && IsModelFile(files[j]) ==> j in ix
  {
    if files == [] then []
    else
      var n := |files| - 1;
      var front := ModelFileIndices(files[..n]);
      assert forall j :: 0 <= j < n ==> files[..n][j] == files[j];
      front + (if IsModelFile(files[n]) then [n] else [])
  }

  /**
   * One entry per model file, in listing order, and nothing for any other
   * file: the k-th entry is made from the k-th filename that passes the filter.
   */
  lemma {:induction false} AvailableModelsFollowListing(files: seq<string>, load: string -> Option<EntityId>)
    ensures |AvailableModels(files, load)| == |ModelFileIndices(files)|
    ensures forall k :: 0 <= k < |ModelFileIndices(files)| ==>
              AvailableModels(files, load)[k] == NewModel(ModelName(files[ModelFileIndices(files)[k]]), load)
  {
    if files != [] {
      var n := |files| - 1;
      AvailableModelsFollowListing(files[..n], load);
      var ix, front := ModelFileIndices(files[..n]), AvailableModels(files[..n], load);
      forall k | 0 <= k < |ix|
        ensures AvailableModels(files, load)[k] == NewModel(ModelName(files[ModelFileIndices(files)[k]]), load)
      {
        assert ModelFileIndices(files)[k] == ix[k];
        assert files[..n][ix[k]] == files[ix[k]];
      }
    }
  }

  /**
   * The model initializer. `resourcePath` is the bundle's resource path (None
   * when absent) and `contentsOfDirectory` the directory listing of a path
   * (None when listing fails); in both failure cases there are no models.
   */
  method LoadAvailableModels(
    resourcePath: Option<string>,
    contentsOfDirectory: string -> Option<seq<string>>,
    load: string -> Option<EntityId>)
    returns (models: seq<Model>)
    ensures resourcePath.None? ==> models == []
    ensures resourcePath.Some? && contentsOfDirectory(resourcePath.value).None? ==> models == []
    ensures resourcePath.Some? && contentsOfDirectory(resourcePath.value).Some? ==>
              models == AvailableModels(contentsOfDirectory(resourcePath.value).value, load)
  {
    if resourcePath.None? {
      return [];
    }
    var listing := contentsOfDirectory(resourcePath.value);
    if listing.None? {
      return [];
    }
    var files := listing.value;
    var availableModels: seq<Model> := [];
    for i := 0 to |files|
      invariant availableModels == AvailableModels(files[..i], load)
    {
      var filename := files[i];
      assert files[..i + 1][..i] == files[..i];
      if IsModelFile(filename) {
        var modelName := RemoveOccurrences(filename, AssetExtension);
        availableModels := availableModels + [NewModel(modelName, load)];
      }
    }
    assert files[..|files|] == files;
    models := availableModels;
  }

  /**
   * A filename `base + ".usdz"` whose base holds no ".usdz" is a model file,
   * its entry is named exactly `base`, and the file the entry then loads is
   * the listed file itself.
   */
  lemma {:induction false} PlainFilenameRoundTrip(base: string)
    requires !Contains(base, AssetExtension)
    ensures IsModelFile(base + AssetExtension)
    ensures ModelName(base + AssetExtension) == base
    ensures ModelName(base + AssetExtension) + AssetExtension == base + AssetExtension
    decreases |base|
  {
    var s := base + AssetExtension;
    assert s[|s| - |AssetSuffix|..] == AssetSuffix;
    if base == [] {
      assert HasPrefix(s, AssetExtension);
      assert s[|AssetExtension|..] == [];
    } else {
      if |base| >= |AssetExtension| {
        assert base[..|AssetExtension|] == s[..|AssetExtension|];
        assert !OccursAt(base, AssetExtension, 0);
      } else {
        // the extension's dot would have to match one of its other letters
        var k := |base|;
        assert s[k] == '.' && AssetExtension[k] != '.';
        assert s[..|AssetExtension|][k] == s[k];
      }
      assert !HasPrefix(s, AssetExtension);
      if Contains(base[1..], AssetExtension) {
        var i :| 0 <= i <= |base| - 1 && OccursAt(base[1..], AssetExtension, i);
        OccursAtTail(base, AssetExtension, i);
        assert false;
      }
      assert s[1..] == base[1..] + AssetExtension;
      PlainFilenameRoundTrip(base[1..]);
      assert base == [base[0]] + base[1..];
    }
  }

  /** The filter does not ask for a dot: a file named "usdz" becomes an entry named "usdz". */
  lemma SuffixWithoutDotIsKept()
    ensures IsModelFile("usdz")
    ensures ModelName("usdz") == "usdz"
  {
  }

  /** Every ".usdz" goes, not only the trailing one. */
  lemma InnerExtensionsAreRemoved()
    ensures IsModelFile("a.usdz.usdz")
    ensures ModelName("a.usdz.usdz") == "a"
  {
  }

  /**
   * A single pass: removing the ".usdz" inside "..usdzusdz" forms a new
   * ".usdz" that is not removed, so that model file's entry is named ".usdz".
   */
  lemma SinglePassLeavesAnExtension()
    ensures IsModelFile("..usdzusdz")
    ensures ModelName("..usdzusdz") == ".usdz"
    ensures Contains(ModelName("..usdzusdz"), AssetExtension)
  {
    var s: string := "..usdzusdz";
    assert s[..|AssetExtension|][1] == s[1] == '.' != AssetExtension[1];
    assert !HasPrefix(s, AssetExtension);
    assert s[1..] == ".usdzusdz";
    assert HasPrefix(s[1..], AssetExtension);
    assert s[1..][5..] == "usdz";
    assert !Contains("usdz", AssetExtension);
    assert OccursAt(".usdz", AssetExtension, 0);
  }
}
