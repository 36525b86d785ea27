# goo-cannon-softbody bootstrap: verified model of its self-contained logic

`js/main.js` boots a Goo Engine application in the browser: it checks for
WebGL, builds the engine, loads `root.bundle`, picks the scene to load, wires
the fullscreen and mute buttons, and starts the game loop. Most of it drives
the engine and the DOM. This project models the parts that have their own
logic, and proves what they guarantee:

- **Scene selection** (`getFirstSceneFromBundle`). The bundle is a sequence of
  key/value entries in `for…in` order. The result is the value of the first
  key that ends in `.scene`, or `None` (the source's `null`) when no key does.
- **The skybox step of `loadScene`**. When the transparent-background flag is
  set, every `.skybox` entry gets `box.enabled = false`. A skybox entry without
  a `box` throws a TypeError, after the earlier skyboxes have already changed.
  The source hard-codes the flag to `false`; the model takes it as a parameter.
- **The no-scene guard of `loadScene`**. A missing scene, or a scene whose `id`
  is absent or empty (falsy), ends the callback with `null`. In that case the
  canvas setup and the second load never happen. Otherwise the canvas is
  configured from the scene's `canvas` and the scene's `id` is loaded with
  `preloadBinaries: true`.
- **`camel2dash`**. The regular-expression global replace is modelled as the
  engine scans: left to right, resuming after each match. It is proved equal
  to "one `-` after every lower-case letter that precedes an upper-case one",
  followed by lower-casing.
- **The `touchstart` handler** from `preventBrowserInconsistencies`. It is a
  loop over the target's ancestor chain, which ends where `parentElement` is
  null. It calls `preventDefault` exactly when neither the target nor one of
  its first five ancestors is an `A` element.
- **`show`/`hide`/`toggleMute`/`checkForWebGLSupport`**. These are methods
  over an `Element` class and a `SoundSystem` class. An element holds its
  `classList`, an ordered list of distinct tokens, and the count of its
  pending `hide` callbacks. The sound system holds its `muted` flag.

Files: `wrappers.dfy` (Option), `strings.dfy` (ASCII letter classes,
lower-casing, suffix test), `bundle.dfy` (module `Bundles`), `camel_case.dfy`
(module `CamelCase`), `touch_guard.dfy` (module `TouchGuard`), `dom.dfy`
(module `Dom`).

`show` does not cancel a pending hide: the callback that `hide` scheduled
still adds `hidden` when it fires, even if `show` ran in between.
`Dom.ShowDoesNotCancelHide` and `Dom.ShowWhileHidePending` prove that the
shown element then carries both `visible` and `hidden`.

Two calls of `toggleMute` always restore the mute flag. They restore the
button's class set exactly when the button's icon class matched the flag
beforehand: `Dom.ToggleTwiceRestoresClasses` proves the "if" direction and
`Dom.ToggleTwiceRestoresOnlyIfAgree` the "only if". For example, a button that
starts with neither icon keeps `icon-sound` after two toggles
(`Dom.ToggleTwiceWithoutIcon`).

## Model

| member | source | states |
|---|---|---|
| `Bundles.FirstScene` | js/main.js:178-188 | The result is `None` exactly when no key ends in `.scene`. Otherwise it is the value of a key ending in `.scene` such that no earlier key does. |
| `Bundles.FirstSceneIsFirstMatch` | js/main.js:181-185 | If entry `i` is a scene and no earlier entry is, the result is entry `i`'s value, whatever scene entries come later (order stability). |
| `Bundles.SceneIsNotSkybox` | js/main.js:139 | No key matches both `/\.scene$/` and `/\.skybox$/`. |
| `Bundles.FirstMissingBox` | js/main.js:140-143 | Gives the position where `v.box.enabled = false` throws: the first skybox entry without a box. Every skybox entry before it has a box. |
| `Bundles.Bundle.DisableSkyboxes` | js/main.js:137-144 | Flag off: nothing changes and the step succeeds. Flag on: it succeeds exactly when every skybox entry has a box. The entries are then the input with every skybox entry before the throwing position disabled and the rest untouched. |
| `Bundles.SkyboxesDisabledEffect` | js/main.js:137-144 | After the completed step, keys and order are unchanged. Each skybox entry has `box.enabled == false` and keeps its other fields. Every other entry is unchanged. |
| `Bundles.SkyboxesDisabledIdempotent` | js/main.js:137-144 | Running the skybox step twice gives the same bundle as running it once. |
| `Bundles.SkyboxStepKeepsScene` | js/main.js:133-143 | The skybox step, even stopped part-way, changes neither which scene is selected nor its contents. |
| `Bundles.NoSceneExactly` | js/main.js:146-149 | The callback yields `null` (no canvas setup, no scene load) exactly when no key ends in `.scene`, or the first scene entry's `id` is absent or empty. |
| `Bundles.SceneGuard` | js/main.js:146-160 | The guard stops (`null`) exactly when there is no scene or its `id` is absent or empty, and it never rejects. Otherwise the canvas is configured from that scene's `canvas`, and the scene is requested by its non-empty `id` with `preloadBinaries: true`. |
| `Bundles.ProceedsWithFirstScene` | js/main.js:153-161 | When the guard passes, the canvas config and the loaded id both come from the first scene entry. The id is non-empty and binaries are preloaded. |
| `Bundles.LoadSceneFromBundle` | js/main.js:132-161 | The bundle callback rejects when the skybox step throws. Otherwise its outcome is the guard applied to the first scene. The bundle ends as the skybox step leaves it, and is unchanged when the flag is off. |
| `Strings.LowerChar` | js/main.js:290 | `toLowerCase` on one character never yields an upper-case ASCII letter. It maps `A`–`Z` to `a`–`z` and leaves every other character alone. |
| `CamelCase.LowerAscii` | js/main.js:290 | `toLowerCase` keeps the length and lower-cases each character in place. |
| `CamelCase.ReplaceBoundaries` | js/main.js:290 | The left-to-right global replace of `/([a-z])([A-Z])/g` by `$1-$2` inserts exactly one `-` at every lower-to-upper boundary of the input. Matches never overlap and none is missed. |
| `CamelCase.DashAtMatch` | js/main.js:290 | At a match `[a-z][A-Z]` the reference places one dash between the two letters and none after the upper-case one, so the scan may resume after the match. |
| `CamelCase.DashAtBoundariesLength` | js/main.js:290 | The replacement is longer than the input by exactly the number of boundaries. |
| `CamelCase.DashAtBoundariesOnlyAddsDashes` | js/main.js:290 | Apart from dashes, the replacement holds exactly the input's characters, in order. |
| `CamelCase.Camel2Dash` | js/main.js:289-291 | The output is the input with a `-` at each boundary, then lower-cased. Its length is the input's plus the boundary count. It has no upper-case ASCII letter. |
| `CamelCase.Camel2DashOnlyAddsDashes` | js/main.js:289-291 | Without its dashes, the output equals the lower-cased input without its dashes: no character other than a dash is added or dropped. |
| `CamelCase.Camel2DashIdempotent` | js/main.js:289-291 | Applying `camel2dash` to its own output changes nothing. |
| `TouchGuard.HandleTouchStart` | js/main.js:253-266 | `preventDefault` is called exactly when neither the target nor one of its first five ancestors is an `A` element. At most five ancestors are read, never past a null parent. The walk stops at the first link. |
| `TouchGuard.OnlyFirstFiveAncestorsMatter` | js/main.js:258-263 | Ancestors beyond the fifth never change the decision. |
| `Dom.Added` | js/main.js:295 | `classList.add` makes the token present and keeps every other token. It keeps the list duplicate-free, does nothing when the token is present, and otherwise appends it. |
| `Dom.Removed` | js/main.js:296 | `classList.remove` makes the token absent, keeps every other token and never lengthens the list. It does nothing when the token is absent. |
| `Dom.RemovedAt` | js/main.js:296 | Removing a token that occurs once, at position `k`, gives the list without position `k`: every other token keeps its relative order. |
| `Dom.RemovedDistinct` | js/main.js:296 | Removing a token keeps the class list duplicate-free. |
| `Dom.Element.Add` | js/main.js:295 | The element's class list becomes `Added` of the old one and stays duplicate-free. |
| `Dom.Element.Remove` | js/main.js:296 | The element's class list becomes `Removed` of the old one and stays duplicate-free. |
| `Dom.Show` | js/main.js:293-297 | `show` adds `visible` and removes `hidden`. It leaves the pending hide count alone: there is no cancellation. |
| `Dom.Hide` | js/main.js:299-305 | `hide` removes `visible` at once and schedules one more pending "add `hidden`" callback. |
| `Dom.FireHideTimer` | js/main.js:302-304 | A pending hide callback adds `hidden` and consumes one pending callback. |
| `Dom.VisibilityClasses` | js/main.js:293-305 | After `show`, `visible` is present and `hidden` absent. `hide` removes only `visible`, and its callback adds only `hidden`. No other class changes. |
| `Dom.ShowDoesNotCancelHide` | js/main.js:293-305 | Hide, then show, then the hide callback fires: the element carries both `visible` and `hidden`. |
| `Dom.ShowWhileHidePending` | js/main.js:293-305 | The same race, run through the `Show`/`Hide`/`FireHideTimer` methods on one element. The element ends with both `visible` and `hidden`, its classes are those `HideFired(Shown(HideStarted(...)))` gives, and no hide is left pending beyond those already pending. |
| `Dom.SoundSystem.Mute` | js/main.js:243 | `mute()` sets the flag. |
| `Dom.SoundSystem.Unmute` | js/main.js:239 | `unmute()` clears the flag. |
| `Dom.ToggleMute` | js/main.js:235-247 | Inverts the mute flag and turns the button's classes into `Toggled` of the old classes and flag. |
| `Dom.ToggleShowsNewState` | js/main.js:238-246 | After a toggle the button carries the new state's icon and not the other, and keeps every other class. |
| `Dom.ToggleTwiceRestoresClasses` | js/main.js:238-246 | If the icon matched the flag, two toggles give back the same multiset of classes (the same set, duplicate-free). |
| `Dom.ToggleTwiceRestoresOnlyIfAgree` | js/main.js:238-246 | Conversely, if two toggles give back the original set of classes, the icon matched the flag beforehand. |
| `Dom.ToggleTwiceWithoutIcon` | js/main.js:238-246 | A button with no icon class still carries `icon-sound` after two toggles, so the class set is not restored in general. |
| `Dom.ToggleMuteTwice` | js/main.js:235-247 | Two clicks always restore the mute flag, and the button's classes are the two toggles applied in turn. They restore the multiset of the button's classes when the icon matched the flag, and the set of classes is restored only if it did. |
| `Dom.CheckForWebGLSupport` | js/main.js:273-284 | Supported: the loading screen is shown and the fallback is untouched. Unsupported: the fallback is shown and the loading screen starts hiding (one pending callback). The result is the support flag. |

## Left out

- Engine construction and system registration (`initGoo`, js/main.js:99-117): these are calls into the Goo Engine, whose code is not part of this model.
- The promise chain of `init` (js/main.js:48-76): `world.process`, `checkResize`, the `setup` hook, `EntityCombiner`, `prepareMaterials` and `startGameLoop`. This is sequencing over the external engine and has no local logic.
- `DynamicLoader.load` (js/main.js:132, 158-164): an asynchronous fetch by the engine. The model starts from the loaded bundle and ends at the request for the second load.
- `onLoadProgress` (js/main.js:196-201): floating-point percentage with `toFixed` rounding, a style write and `window.postMessage`, which is I/O.
- `maximize` (js/main.js:219-230): a fallback chain over the browser's fullscreen APIs.
- The iOS viewport-resize hack (js/main.js:38-45): DOM layout side effects only.
- `addButtonListeners` (js/main.js:206-214) and the listener registration in `preventBrowserInconsistencies`. The event wiring is DOM I/O; the handlers themselves are modelled.
- Timers: `hide`'s `setTimeout` is a count of pending callbacks per element, not time. The relative order of callbacks pending on different elements is not modelled.
- `CamelCase.LowerAscii`: lower-cases only `A`–`Z`. JavaScript's `toLowerCase` also maps non-ASCII upper-case letters, which the model leaves unchanged.
- `Bundles.FirstScene`: takes the entry sequence as the `for…in` order of the bundle's own keys. Inherited enumerable properties, which `for…in` visits after the own keys and which may have any name, are not modelled. A bundle parsed from JSON has none unless `Object.prototype` has been extended. JavaScript also visits integer-like own keys first; none of them can end in `.scene`.
- `Bundles.Bundle.DisableSkyboxes`: fuses `Object.keys(...).filter(...)` and `forEach` into one pass. The filter reads only keys and the loop changes only box flags, so the outcome is the same. Two keys sharing one `box` object (aliasing) is not captured. A bundle value that is itself `null` is not represented.
- `Bundles.SceneGuard`: the `scene ? scene.canvas : {}` fallback (js/main.js:153) is dead after the guard, so only `scene.canvas` is modelled. An absent `canvas` is `None`.
- `Dom.ToggleTwiceRestoresClasses`: restores the class multiset, not the order. `classList.add` appends, so the icon token can move to the end of the list.
- `Dom.ToggleMute`: the comment above `toggleMute` (js/main.js:232-234) says it mutes sounds and returns whether the new state is muted. The code toggles the state and returns nothing. The model follows the code. Both listeners that call it (js/main.js:212-213) ignore the result.
- `Dom.ToggleMute`, `Dom.Show`, `Dom.Hide`: assume that every lookup succeeds. `document.getElementById` must return an element (js/main.js:237, 294, 300). `gooRunner.world.getSystem('SoundSystem')` must return a sound system (js/main.js:236). `initGoo` (js/main.js:105-114) registers none, so this rests on engine code that is not part of this model. `mute()` and `unmute()` are assumed to set and clear `muted`; nothing else they may do is modelled. The TypeError a failed lookup raises is not modelled. For `show` and `hide` it comes before any change. For `toggleMute` a missing sound system throws at js/main.js:238 before any change. A missing button throws at js/main.js:240 or 244, after the flag has already flipped.
