/**
 * The user-interface state the bootstrap changes in place: the class lists of
 * the page's surfaces (`show`/`hide`, js/main.js:293-305), the mute button and
 * the sound system's flag (`toggleMute`, js/main.js:235-247), and the choice
 * between loading screen and fallback (`checkForWebGLSupport`,
 * js/main.js:273-284).
 *
 * An element's `classList` is a DOMTokenList: an ordered list of distinct
 * tokens, where `add` appends a token that is absent and `remove` deletes
 * one that is present. A timer set by `hide` is not modelled as time: each
 * element counts the "add `hidden`" callbacks that are scheduled against it
 * and have not fired yet, and `FireHideTimer` is the event loop running one.
 */
module Dom {

  const Visible: string := "visible"
  const Hidden: string := "hidden"
  const IconSound: string := "icon-sound"
  const IconSoundMute: string := "icon-sound-mute"

  predicate Distinct(tokens: seq<string>)
  {
    forall i, j | 0 <= i < j < |tokens| :: tokens[i] != tokens[j]
  }

  /** `classList.add(token)` on the token list. */
  function Added(tokens: seq<string>, token: string): (r: seq<string>)
    ensures token in r
    ensures forall x | x != token :: x in r <==> x in tokens
    ensures Distinct(tokens) ==> Distinct(r)
    ensures token in tokens ==> r == tokens
    ensures token !in tokens ==> |r| == |tokens| + 1 && r[..|tokens|] == tokens && r[|tokens|] == token
  {
    if token in tokens then tokens else tokens + [token]
  }

  /** `classList.remove(token)` on the token list: every other token stays, in its order (`RemovedAt`). */
  function Removed(tokens: seq<string>, token: string): (r: seq<string>)
    ensures token !in r
    ensures forall x | x != token :: x in r <==> x in tokens
    ensures |r| <= |tokens|
    ensures token !in tokens ==> r == tokens
  {
    if tokens == [] then []
    else
      var last := tokens[|tokens| - 1];
      var init := tokens[..|tokens| - 1];
      assert tokens == init + [last];
      Removed(init, token) + (if last == token then [] else [last])
  }

  /**
   * Removing a token that occurs once, at position `k`, leaves every other
   * token where it was relative to the rest: the list without position `k`.
   */
  lemma {:induction false} RemovedAt(tokens: seq<string>, token: string, k: nat)
    requires k < |tokens| && tokens[k] == token
    requires token !in tokens[..k] && token !in tokens[k + 1..]
    ensures Removed(tokens, token) == tokens[..k] + tokens[k + 1..]
  {
    var last := tokens[|tokens| - 1];
    var init := tokens[..|tokens| - 1];
    assert tokens == init + [last];
    if k == |tokens| - 1 {
      assert init == tokens[..k];
      assert tokens[k + 1..] == [];
    } else {
      assert init[..k] == tokens[..k];
      assert init[k + 1..] + [last] == tokens[k + 1..];
      assert last in tokens[k + 1..];
      RemovedAt(init, token, k);
    }
  }

  /** Removing a token keeps the list free of duplicates. */
  lemma {:induction false} RemovedDistinct(tokens: seq<string>, token: string)
    requires Distinct(tokens)
    ensures Distinct(Removed(tokens, token))
  {
    if tokens != [] {
      var last := tokens[|tokens| - 1];
      var init := tokens[..|tokens| - 1];
      assert tokens == init + [last];
      assert last !in init;
      RemovedDistinct(init, token);
    }
  }

  /** A page element, reduced to its class list and the hide callbacks pending against it. */
  class Element {
    var classes: seq<string>
    var pendingHides: nat

    ghost predicate Valid()
      reads this
    {
      Distinct(classes)
    }

    constructor (classes: seq<string>)
      requires Distinct(classes)
      ensures Valid() && this.classes == classes && pendingHides == 0
    {
      this.classes := classes;
      pendingHides := 0;
    }

    /** `classList.contains(token)`. */
    method Contains(token: string) returns (present: bool)
      ensures present <==> token in classes
    {
      var i := 0;
      while i < |classes|
        invariant 0 <= i <= |classes|
        invariant token !in classes[..i]
      {
        if classes[i] == token {
          return true;
        }
        assert classes[..i + 1] == classes[..i] + [classes[i]];
        i := i + 1;
      }
      assert classes[..i] == classes;
      present := false;
    }

    /** `classList.add(token)`. */
    method Add(token: string)
      requires Valid()
      modifies this`classes
      ensures Valid() && classes == Added(old(classes), token)
    {
      var present := Contains(token);
      if !present {
        classes := classes + [token];
      }
    }

    /** `classList.remove(token)`. */
    method Remove(token: string)
      requires Valid()
      modifies this`classes
      ensures Valid() && classes == Removed(old(classes), token)
    {
      var kept := [];
      var i := 0;
      while i < |classes|
        invariant 0 <= i <= |classes|
        invariant kept == Removed(classes[..i], token)
      {
        assert classes[..i + 1][..i] == classes[..i];
        if classes[i] != token {
          kept := kept + [classes[i]];
        }
        i := i + 1;
      }
      assert classes[..i] == classes;
      RemovedDistinct(classes, token);
      classes := kept;
    }
  }

  // ---------------------------------------------------------------------------
  // show / hide

  /** The class list after `show`. */
  function Shown(tokens: seq<string>): seq<string>
  {
    Removed(Added(tokens, Visible), Hidden)
  }

  /** The class list right after `hide`, before its timer fires. */
  function HideStarted(tokens: seq<string>): seq<string>
  {
    Removed(tokens, Visible)
  }

  /** The class list after a pending hide callback has run. */
  function HideFired(tokens: seq<string>): seq<string>
  {
    Added(tokens, Hidden)
  }

  /**
   * `show` leaves `visible` present and `hidden` absent; `hide` takes
   * `visible` away at once and leaves `hidden` as it was; its callback adds
   * `hidden` and touches nothing else. None of them changes another class.
   */
  lemma VisibilityClasses(tokens: seq<string>)
    ensures Visible in Shown(tokens) && Hidden !in Shown(tokens)
    ensures Visible !in HideStarted(tokens) && (Hidden in HideStarted(tokens) <==> Hidden in tokens)
    ensures Hidden in HideFired(tokens) && (Visible in HideFired(tokens) <==> Visible in tokens)
    ensures forall x | x != Visible && x != Hidden ::
      (x in Shown(tokens) <==> x in tokens) &&
      (x in HideStarted(tokens) <==> x in tokens) &&
      (x in HideFired(tokens) <==> x in tokens)
  {
  }

  /**
   * `show` does not cancel a pending hide: hide, then show, then the hide
   * timer fires, and the element carries both `visible` and `hidden`.
   */
  lemma ShowDoesNotCancelHide(tokens: seq<string>)
    ensures Visible in HideFired(Shown(HideStarted(tokens)))
    ensures Hidden in HideFired(Shown(HideStarted(tokens)))
  {
  }

  /** `show(id)`: add `visible`, remove `hidden`; a pending hide stays pending. */
  method Show(e: Element)
    requires e.Valid()
    modifies e`classes
    ensures e.Valid() && e.classes == Shown(old(e.classes))
  {
    e.Add(Visible);
    e.Remove(Hidden);
  }

  /** `hide(id)`: remove `visible` now and schedule the callback that adds `hidden`. */
  method Hide(e: Element)
    requires e.Valid()
    modifies e`classes, e`pendingHides
    ensures e.Valid() && e.classes == HideStarted(old(e.classes))
    ensures e.pendingHides == old(e.pendingHides) + 1
  {
    e.Remove(Visible);
    e.pendingHides := e.pendingHides + 1;
  }

  /** The event loop runs one pending hide callback: `classList.add('hidden')`. */
  method FireHideTimer(e: Element)
    requires e.Valid() && e.pendingHides > 0
    modifies e`classes, e`pendingHides
    ensures e.Valid() && e.classes == HideFired(old(e.classes))
    ensures e.pendingHides == old(e.pendingHides) - 1
  {
    e.Add(Hidden);
    e.pendingHides := e.pendingHides - 1;
  }

  /**
   * A `show` between a `hide` and its timer: the timer still fires and the
   * shown element ends up carrying `hidden`.
   */
  method ShowWhileHidePending(e: Element)
    requires e.Valid()
    modifies e
    ensures e.Valid() && Visible in e.classes && Hidden in e.classes
    ensures e.classes == HideFired(Shown(HideStarted(old(e.classes))))
    ensures e.pendingHides == old(e.pendingHides)
  {
    Hide(e);
    Show(e);
    FireHideTimer(e);
    ShowDoesNotCancelHide(old(e.classes));
  }

  // ---------------------------------------------------------------------------
  // toggleMute

  /** The sound system, reduced to its `muted` flag. */
  class SoundSystem {
    var muted: bool

    constructor (muted: bool)
      ensures this.muted == muted
    {
      this.muted := muted;
    }

    method Mute()
      modifies this
      ensures muted
    {
      muted := true;
    }

    method Unmute()
      modifies this
      ensures !muted
    {
      muted := false;
    }
  }

  /** The icon class that shows the given mute state. */
  function IconFor(muted: bool): string
  {
    if muted then IconSoundMute else IconSound
  }

  /** The button shows exactly the icon of the given mute state. */
  predicate IconsAgree(tokens: seq<string>, muted: bool)
  {
    IconFor(muted) in tokens && IconFor(!muted) !in tokens
  }

  /** The mute button's class list after `toggleMute`, given the flag before it. */
  function Toggled(tokens: seq<string>, wasMuted: bool): seq<string>
  {
    Removed(Added(tokens, IconFor(!wasMuted)), IconFor(wasMuted))
  }

  /**
   * After a toggle the button carries the icon of the new state and not the
   * other one, whatever it carried before, and every other class is kept.
   */
  lemma ToggleShowsNewState(tokens: seq<string>, wasMuted: bool)
    ensures IconsAgree(Toggled(tokens, wasMuted), !wasMuted)
    ensures forall x | x != IconSound && x != IconSoundMute :: x in Toggled(tokens, wasMuted) <==> x in tokens
  {
  }

  /**
   * Toggling twice gives back the original set of classes, provided the
   * icon agreed with the flag to begin with; on a distinct list it is the
   * same tokens, possibly in another order.
   */
  lemma {:induction false} ToggleTwiceRestoresClasses(tokens: seq<string>, muted: bool)
    requires IconsAgree(tokens, muted)
    requires Distinct(tokens)
    ensures forall x :: x in Toggled(Toggled(tokens, muted), !muted) <==> x in tokens
    ensures multiset(Toggled(Toggled(tokens, muted), !muted)) == multiset(tokens)
  {
    var once := Removed(Added(tokens, IconFor(!muted)), IconFor(muted));
    RemovedDistinct(Added(tokens, IconFor(!muted)), IconFor(muted));
    var twice := Removed(Added(once, IconFor(muted)), IconFor(!muted));
    RemovedDistinct(Added(once, IconFor(muted)), IconFor(!muted));
    DistinctSameElements(twice, tokens);
  }

  /** In a duplicate-free list every token occurs once or not at all. */
  lemma {:induction false} DistinctMultiplicity(tokens: seq<string>, x: string)
    requires Distinct(tokens)
    ensures multiset(tokens)[x] == if x in tokens then 1 else 0
  {
    if tokens != [] {
      assert tokens == [tokens[0]] + tokens[1..];
      assert tokens[0] !in tokens[1..];
      DistinctMultiplicity(tokens[1..], x);
    }
  }

  /** Two duplicate-free lists with the same elements have the same multiset. */
  lemma DistinctSameElements(a: seq<string>, b: seq<string>)
    requires Distinct(a) && Distinct(b)
    requires forall x :: x in a <==> x in b
    ensures multiset(a) == multiset(b)
  {
    forall x ensures multiset(a)[x] == multiset(b)[x] {
      DistinctMultiplicity(a, x);
      DistinctMultiplicity(b, x);
    }
  }

  /**
   * The converse: if two toggles give back the original set of classes, the
   * icon agreed with the flag to begin with.
   */
  lemma ToggleTwiceRestoresOnlyIfAgree(tokens: seq<string>, muted: bool)
    requires forall x :: x in Toggled(Toggled(tokens, muted), !muted) <==> x in tokens
    ensures IconsAgree(tokens, muted)
  {
    ToggleShowsNewState(Toggled(tokens, muted), !muted);
  }

  /** A button that carries neither icon shows one after two toggles: the class set is not restored. */
  lemma ToggleTwiceWithoutIcon()
    ensures IconSound in Toggled(Toggled([], false), true)
  {
    ToggleShowsNewState(Toggled([], false), true);
  }

  /**
   * `toggleMute`: flip the sound system's flag and make the button show the
   * icon of the new state (js/main.js:238-246).
   */
  method ToggleMute(sound: SoundSystem, button: Element)
    requires button.Valid()
    modifies sound, button`classes
    ensures sound.muted == !old(sound.muted)
    ensures button.Valid() && button.classes == Toggled(old(button.classes), old(sound.muted))
  {
    if sound.muted {
      sound.Unmute();
      button.Add(IconSound);
      button.Remove(IconSoundMute);
    } else {
      sound.Mute();
      button.Add(IconSoundMute);
      button.Remove(IconSound);
    }
  }

  /**
   * Two clicks on the mute button always restore the flag; they restore the
   * button's classes exactly when its icon agreed with the flag beforehand.
   */
  method ToggleMuteTwice(sound: SoundSystem, button: Element)
    requires button.Valid()
    modifies sound, button`classes
    ensures sound.muted == old(sound.muted)
    ensures button.Valid()
    ensures button.classes == Toggled(Toggled(old(button.classes), old(sound.muted)), !old(sound.muted))
    ensures IconsAgree(old(button.classes), old(sound.muted)) ==>
      multiset(button.classes) == multiset(old(button.classes))
    ensures (forall x :: x in button.classes <==> x in old(button.classes)) ==>
      IconsAgree(old(button.classes), old(sound.muted))
  {
    ToggleMute(sound, button);
    ToggleMute(sound, button);
    if IconsAgree(old(button.classes), old(sound.muted)) {
      ToggleTwiceRestoresClasses(old(button.classes), old(sound.muted));
    }
    if forall x :: x in button.classes <==> x in old(button.classes) {
      ToggleTwiceRestoresOnlyIfAgree(old(button.classes), old(sound.muted));
    }
  }

  // ---------------------------------------------------------------------------
  // checkForWebGLSupport

  /**
   * `checkForWebGLSupport`, with the outcome of `WebGLSupport.check()` as
   * `supported`: show the loading screen and go on, or show the fallback,
   * start hiding the loading screen and stop.
   */
  method CheckForWebGLSupport(supported: bool, loadingScreen: Element, fallback: Element) returns (ok: bool)
    requires loadingScreen != fallback
    requires loadingScreen.Valid() && fallback.Valid()
    modifies loadingScreen, fallback
    ensures ok == supported
    ensures loadingScreen.Valid() && fallback.Valid()
    ensures supported ==>
      loadingScreen.classes == Shown(old(loadingScreen.classes)) &&
      loadingScreen.pendingHides == old(loadingScreen.pendingHides) &&
      fallback.classes == old(fallback.classes) && fallback.pendingHides == old(fallback.pendingHides)
    ensures !supported ==>
      fallback.classes == Shown(old(fallback.classes)) &&
      fallback.pendingHides == old(fallback.pendingHides) &&
      loadingScreen.classes == HideStarted(old(loadingScreen.classes)) &&
      loadingScreen.pendingHides == old(loadingScreen.pendingHides) + 1
  {
    if supported {
      Show(loadingScreen);
      return true;
    } else {
      Show(fallback);
      Hide(loadingScreen);
      return false;
    }
  }
}
