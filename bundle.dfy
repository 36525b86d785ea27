/**
 * The root bundle returned by the dynamic loader, and the two things the
 * bootstrap does with it before the scene is loaded (js/main.js:132-188):
 * picking the first scene entry, and switching skyboxes off when the canvas
 * background is transparent.
 *
 * A bundle is a JavaScript object whose keys are asset identifiers; `for…in`
 * and `Object.keys` visit them in insertion order, so the model keeps the
 * entries as a sequence in that order. Keys of one object are distinct; no
 * operation here depends on that.
 */
module Bundles {
  import opened Wrappers
  import opened Strings

  /** The `box` object of a skybox asset; the model keeps only its `enabled` flag. */
  datatype Box = Box(enabled: bool)

  /** Sizing mode, resolution and aspect settings handed to the canvas wrapper, kept opaque. */
  type CanvasConfig = map<string, string>

  /**
   * The configuration object stored under one bundle key, reduced to the
   * properties the bootstrap reads: `id` and `canvas` of a scene, `box` of a
   * skybox. `None` stands for a property that is absent (undefined).
   */
  datatype Asset = Asset(id: Option<string>, canvas: Option<CanvasConfig>, box: Option<Box>)

  datatype Entry = Entry(key: string, value: Asset)

  const SceneSuffix: string := ".scene"
  const SkyboxSuffix: string := ".skybox"

  /** `isSceneId`: the key matches `/\.scene$/`. */
  predicate IsSceneId(key: string) { EndsWith(key, SceneSuffix) }

  /** The key matches `/\.skybox$/`. */
  predicate IsSkyboxId(key: string) { EndsWith(key, SkyboxSuffix) }

  /** No key names both a scene and a skybox. */
  lemma SceneIsNotSkybox(key: string)
    ensures !(IsSceneId(key) && IsSkyboxId(key))
  {
    SuffixesExclusive(key, SceneSuffix, SkyboxSuffix);
  }

  // ---------------------------------------------------------------------------
  // getFirstSceneFromBundle

  /**
   * `getFirstSceneFromBundle`: the value under the first key, in iteration
   * order, that ends in `.scene`; `None` (the source's `null`) when no key does.
   */
  function FirstScene(bundle: seq<Entry>): (r: Option<Asset>)
    ensures r.None? <==> forall i | 0 <= i < |bundle| :: !IsSceneId(bundle[i].key)
    ensures r.Some? ==>
      exists i | 0 <= i < |bundle| ::
        IsSceneId(bundle[i].key) && r.value == bundle[i].value &&
        forall j | 0 <= j < i :: !IsSceneId(bundle[j].key)
  {
    if bundle == [] then None
    else if IsSceneId(bundle[0].key) then Some(bundle[0].value)
    else
      var r := FirstScene(bundle[1..]);
      assert forall i | 1 <= i < |bundle| :: bundle[i] == bundle[1..][i - 1];
      r
  }

  /**
   * Order stability: if entry `i` is a scene and no earlier entry is, the
   * search returns entry `i`'s value, whatever scene entries follow it.
   */
  lemma FirstSceneIsFirstMatch(bundle: seq<Entry>, i: nat)
    requires i < |bundle| && IsSceneId(bundle[i].key)
    requires forall j | 0 <= j < i :: !IsSceneId(bundle[j].key)
    ensures FirstScene(bundle) == Some(bundle[i].value)
  {
  }

  // ---------------------------------------------------------------------------
  // Disabling skyboxes (the `alphaEnabled` branch of loadScene)

  /** The entry after the skybox step: `v.box.enabled = false` on a skybox that has a box, nothing otherwise. */
  function WithSkyboxDisabled(e: Entry): Entry
  {
    if IsSkyboxId(e.key) && e.value.box.Some? then
      e.(value := e.value.(box := Some(e.value.box.value.(enabled := false))))
    else e
  }

  /**
   * The position of the first skybox entry without a `box` property, where
   * `v.box.enabled = false` throws a TypeError; |bundle| when there is none.
   */
  function FirstMissingBox(bundle: seq<Entry>): (k: nat)
    ensures k <= |bundle|
    ensures forall i | 0 <= i < k :: IsSkyboxId(bundle[i].key) ==> bundle[i].value.box.Some?
    ensures k < |bundle| ==> IsSkyboxId(bundle[k].key) && bundle[k].value.box.None?
  {
    if bundle == [] then 0
    else if IsSkyboxId(bundle[0].key) && bundle[0].value.box.None? then 0
    else
      var k := FirstMissingBox(bundle[1..]);
      assert forall i | 1 <= i < |bundle| :: bundle[i] == bundle[1..][i - 1];
      k + 1
  }

  /** The bundle after the skybox step has handled the entries before position `k`. */
  function DisabledBefore(bundle: seq<Entry>, k: nat): seq<Entry>
  {
    seq(|bundle|, j requires 0 <= j < |bundle| => if j < k then WithSkyboxDisabled(bundle[j]) else bundle[j])
  }

  /** The bundle after a skybox step that ran to completion. */
  function SkyboxesDisabled(bundle: seq<Entry>): seq<Entry>
  {
    DisabledBefore(bundle, |bundle|)
  }

  /**
   * What the completed skybox step does: the keys and their order are
   * unchanged, every skybox entry ends with `box.enabled == false` and keeps
   * everything else, and every other entry is left exactly as it was.
   */
  lemma SkyboxesDisabledEffect(bundle: seq<Entry>)
    requires FirstMissingBox(bundle) == |bundle|
    ensures |SkyboxesDisabled(bundle)| == |bundle|
    ensures forall i | 0 <= i < |bundle| :: SkyboxesDisabled(bundle)[i].key == bundle[i].key
    ensures forall i | 0 <= i < |bundle| && IsSkyboxId(bundle[i].key) ::
      var v, w := SkyboxesDisabled(bundle)[i].value, bundle[i].value;
      v.box == Some(Box(false)) && v.id == w.id && v.canvas == w.canvas
    ensures forall i | 0 <= i < |bundle| && !IsSkyboxId(bundle[i].key) ::
      SkyboxesDisabled(bundle)[i] == bundle[i]
  {
  }

  /** Running the skybox step a second time changes nothing. */
  lemma SkyboxesDisabledIdempotent(bundle: seq<Entry>)
    ensures SkyboxesDisabled(SkyboxesDisabled(bundle)) == SkyboxesDisabled(bundle)
  {
  }

  /** The skybox step never changes which scene is selected, nor the scene's contents. */
  lemma {:induction false} SkyboxStepKeepsScene(bundle: seq<Entry>, k: nat)
    ensures FirstScene(DisabledBefore(bundle, k)) == FirstScene(bundle)
  {
    var r := DisabledBefore(bundle, k);
    if bundle != [] {
      SceneIsNotSkybox(bundle[0].key);
      assert r[0].key == bundle[0].key;
      if !IsSceneId(bundle[0].key) {
        var k' := if k == 0 then 0 else k - 1;
        assert r[1..] == DisabledBefore(bundle[1..], k');
        SkyboxStepKeepsScene(bundle[1..], k');
      }
    }
  }

  /**
   * The bundle as the loader returns it. The skybox step changes its entries
   * in place; the model reassigns the sequence.
   */
  class Bundle {
    var entries: seq<Entry>

    constructor (entries: seq<Entry>)
      ensures this.entries == entries
    {
      this.entries := entries;
    }

    /**
     * The skybox step of `loadScene`: when `alphaEnabled`, every entry whose
     * key ends in `.skybox` gets `box.enabled = false`. A skybox without a
     * box raises a TypeError (`ok` is false) after the earlier skyboxes have
     * already been changed. When `alphaEnabled` is false nothing happens.
     */
    method DisableSkyboxes(alphaEnabled: bool) returns (ok: bool)
      modifies this
      ensures !alphaEnabled ==> ok && entries == old(entries)
      ensures alphaEnabled ==> ok == (FirstMissingBox(old(entries)) == |old(entries)|)
      ensures alphaEnabled ==> entries == DisabledBefore(old(entries), FirstMissingBox(old(entries)))
    {
      if !alphaEnabled {
        return true;
      }
      ghost var original := entries;
      ghost var k := FirstMissingBox(original);
      var i := 0;
      while i < |entries|
        invariant |entries| == |original|
        invariant i <= k
        invariant entries == DisabledBefore(original, i)
      {
        var e := entries[i];
        if IsSkyboxId(e.key) {
          if e.value.box.None? {
            return false;
          }
          entries := entries[i := WithSkyboxDisabled(e)];
        }
        i := i + 1;
      }
      return true;
    }
  }

  // ---------------------------------------------------------------------------
  // The rest of loadScene's bundle callback

  /** The request for the second load: the scene's id, with `preloadBinaries: true`. */
  datatype SceneRequest = SceneRequest(sceneId: string, preloadBinaries: bool)

  /** How the bundle callback of `loadScene` ends. */
  datatype LoadStep =
    | NoScene
      // 'Error: No scene in bundle' is logged and the promise resolves with null
    | Rejected
      // the skybox step threw; the promise rejects
    | LoadSceneAssets(canvasConfig: Option<CanvasConfig>, request: SceneRequest)
      // the canvas wrapper is set up with canvasConfig, added and hidden,
      // then the scene is loaded as request says

  /** JavaScript truthiness of the `id` property: absent and the empty string are falsy. */
  predicate IdPresent(id: Option<string>) { id.Some? && id.value != "" }

  /**
   * The guard `if (!scene || !scene.id) return null;` and what follows it:
   * it stops exactly when there is no scene or its id is falsy, it never
   * rejects, and otherwise the canvas is configured from that scene and the
   * scene is requested by its non-empty id with binaries preloaded.
   */
  function SceneGuard(scene: Option<Asset>): (r: LoadStep)
    ensures !r.Rejected?
    ensures r.NoScene? <==> scene.None? || !IdPresent(scene.value.id)
    ensures r.LoadSceneAssets? ==>
      r.canvasConfig == scene.value.canvas && r.request.preloadBinaries &&
      Some(r.request.sceneId) == scene.value.id && r.request.sceneId != ""
  {
    if scene.None? || !IdPresent(scene.value.id) then NoScene
    else LoadSceneAssets(scene.value.canvas, SceneRequest(scene.value.id.value, true))
  }

  /**
   * The no-scene guard, stated on the bundle: the canvas setup and the scene
   * load are skipped exactly when no key ends in `.scene` or the first scene
   * entry has no id.
   */
  lemma NoSceneExactly(bundle: seq<Entry>)
    ensures SceneGuard(FirstScene(bundle)) == NoScene <==>
      (forall i | 0 <= i < |bundle| :: !IsSceneId(bundle[i].key)) ||
      (exists i | 0 <= i < |bundle| ::
        IsSceneId(bundle[i].key) && !IdPresent(bundle[i].value.id) &&
        forall j | 0 <= j < i :: !IsSceneId(bundle[j].key))
  {
  }

  /**
   * When the guard lets the bootstrap through, it loads the first scene
   * entry's id, with binaries preloaded, after configuring the canvas from
   * that same entry.
   */
  lemma ProceedsWithFirstScene(bundle: seq<Entry>)
    requires SceneGuard(FirstScene(bundle)).LoadSceneAssets?
    ensures exists i | 0 <= i < |bundle| ::
      IsSceneId(bundle[i].key) &&
      (forall j | 0 <= j < i :: !IsSceneId(bundle[j].key)) &&
      SceneGuard(FirstScene(bundle)) ==
        LoadSceneAssets(bundle[i].value.canvas, SceneRequest(bundle[i].value.id.value, true)) &&
      bundle[i].value.id.value != ""
  {
  }

  /**
   * The bundle callback of `loadScene` (js/main.js:132-165) up to the second
   * load: select the scene, run the skybox step when `alphaEnabled`, then
   * apply the guard. The source hard-codes `alphaEnabled` to false.
   */
  method LoadSceneFromBundle(bundle: Bundle, alphaEnabled: bool) returns (step: LoadStep)
    modifies bundle
    ensures step == if alphaEnabled && FirstMissingBox(old(bundle.entries)) < |old(bundle.entries)|
                    then Rejected
                    else SceneGuard(FirstScene(old(bundle.entries)))
    ensures !alphaEnabled ==> bundle.entries == old(bundle.entries)
    ensures alphaEnabled ==>
      bundle.entries == DisabledBefore(old(bundle.entries), FirstMissingBox(old(bundle.entries)))
  {
    var scene := FirstScene(bundle.entries);
    var ok := bundle.DisableSkyboxes(alphaEnabled);
    if !ok {
      return Rejected;
    }
    step := SceneGuard(scene);
  }
}
