/**
 * The `touchstart` listener that `preventBrowserInconsistencies` installs on
 * the document body (js/main.js:253-266): it suppresses the browser's default
 * touch behaviour unless the touch landed on a link or inside one, looking at
 * most five ancestors up.
 *
 * An element is represented by its `nodeName`; the chain of its ancestors by
 * the sequence `parentElement`, `parentElement.parentElement`, …, which ends
 * where `parentElement` is null.
 */
module TouchGuard {

  /** How many ancestors the handler looks at, at most. */
  const MaxAncestors: nat := 5

  /** `isLink`: the element's `nodeName` is exactly `A`. */
  predicate IsLink(nodeName: string) { nodeName == "A" }

  /** The handler's decision: neither the target nor any of its first five ancestors is a link. */
  predicate SuppressesDefault(target: string, ancestors: seq<string>)
  {
    !IsLink(target) && forall k | 0 <= k < |ancestors| && k < MaxAncestors :: !IsLink(ancestors[k])
  }

  /**
   * The listener body. `preventDefault` says whether `event.preventDefault()`
   * is called; `inspected` is how many ancestors had their `nodeName` read.
   * It is called exactly when neither the target nor one of its first five
   * ancestors is a link; no ancestor past the fifth, or past a null parent,
   * is ever read, and the walk stops at the first link it meets.
   */
  method HandleTouchStart(target: string, ancestors: seq<string>) returns (preventDefault: bool, inspected: nat)
    ensures preventDefault <==> SuppressesDefault(target, ancestors)
    ensures inspected <= MaxAncestors && inspected <= |ancestors|
    ensures IsLink(target) ==> inspected == 0
    ensures preventDefault ==> inspected == if |ancestors| < MaxAncestors then |ancestors| else MaxAncestors
    ensures !preventDefault && !IsLink(target) ==>
      0 < inspected && IsLink(ancestors[inspected - 1]) &&
      forall k | 0 <= k < inspected - 1 :: !IsLink(ancestors[k])
  {
    inspected := 0;
    if IsLink(target) {
      return false, inspected;
    }
    var i := 0;
    while i < MaxAncestors
      invariant 0 <= i <= MaxAncestors && i <= |ancestors|
      invariant inspected == i
      invariant forall k | 0 <= k < i :: !IsLink(ancestors[k])
    {
      if i == |ancestors| {
        break;
      }
      inspected := inspected + 1;
      if IsLink(ancestors[i]) {
        return false, inspected;
      }
      i := i + 1;
    }
    preventDefault := true;
  }

  /** Ancestors beyond the fifth never influence the decision. */
  lemma OnlyFirstFiveAncestorsMatter(target: string, ancestors: seq<string>, more: seq<string>)
    requires |ancestors| >= MaxAncestors
    ensures SuppressesDefault(target, ancestors + more) == SuppressesDefault(target, ancestors)
  {
    assert forall k | 0 <= k < MaxAncestors :: (ancestors + more)[k] == ancestors[k];
  }
}
