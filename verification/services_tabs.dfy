/**
 * The services tab widget of `initServicesTabs` (src/main.js): the
 * keyboard handler's choice of the next tab, and `activateTab`, which
 * clears every button and panel and then marks the chosen pair active.
 */
module ServicesTabs {
  import opened Lookup

  /**
   * The index the keydown handler moves to from button `current` of
   * `count`, or None for a key it ignores. Arrow keys wrap around.
   */
  function NextIndex(key: string, current: nat, count: nat): (next: Option<nat>)
    requires current < count
    ensures next.Some? <==> key in {"ArrowRight", "ArrowLeft", "Home", "End"}
    ensures next.Some? ==> next.value < count
  {
    if key == "ArrowRight" then Some((current + 1) % count)
    else if key == "ArrowLeft" then Some(if current == 0 then count - 1 else current - 1)
    else if key == "Home" then Some(0)
    else if key == "End" then Some(count - 1)
    else None
  }

  /** ArrowRight is the successor and ArrowLeft the predecessor modulo the number of tabs. */
  lemma ArrowKeysAreModular(current: nat, count: nat)
    requires current < count
    ensures NextIndex("ArrowRight", current, count) == Some((current + 1) % count)
    ensures NextIndex("ArrowLeft", current, count) == Some((current + count - 1) % count)
  {
    SuccessorModulo(current, count);
    PredecessorModulo(current, count);
  }

  /** ArrowLeft undoes ArrowRight. */
  lemma ArrowLeftUndoesArrowRight(current: nat, count: nat)
    requires current < count
    ensures NextIndex("ArrowLeft", NextIndex("ArrowRight", current, count).value, count) == Some(current)
  {
  }

  /** ArrowRight undoes ArrowLeft. */
  lemma ArrowRightUndoesArrowLeft(current: nat, count: nat)
    requires current < count
    ensures NextIndex("ArrowRight", NextIndex("ArrowLeft", current, count).value, count) == Some(current)
  {
  }

  /** `(x + n - 1) % n` wraps only at the first index. */
  lemma PredecessorModulo(x: nat, n: nat)
    requires x < n
    ensures (x + n - 1) % n == if x == 0 then n - 1 else x - 1
  {
  }

  /** `(x + 1) % n` wraps only at the last index. */
  lemma SuccessorModulo(x: nat, n: nat)
    requires x < n
    ensures (x + 1) % n == if x + 1 == n then 0 else x + 1
  {
  }

  /** Home and End reach the first and the last tab from anywhere. */
  lemma HomeAndEndAreEnds(current: nat, count: nat)
    requires current < count
    ensures NextIndex("Home", current, count) == Some(0)
    ensures NextIndex("End", current, count) == Some(count - 1)
  {
  }

  /** The id `activateTab` looks up for a button's `data-tab` value. */
  function PanelId(tab: string): string
  {
    "panel-" + tab
  }

  /**
   * The `.tab-button`s (their `data-tab` values, `active` classes and
   * `aria-selected` attributes), the `.tab-panel`s (their ids and `active`
   * classes) and the focused button.
   */
  class TabWidget {
    const tabOf: seq<string>
    const panelIds: seq<string>
    const buttonActive: array<bool>
    const ariaSelected: array<string>
    const panelActive: array<bool>
    var focused: nat

    ghost predicate Valid()
      reads this
    {
      |tabOf| >= 1 && |panelIds| >= 1 &&
      buttonActive.Length == |tabOf| && ariaSelected.Length == |tabOf| &&
      panelActive.Length == |panelIds| && buttonActive != panelActive
    }

    /** Button `b` and panel `p` are the only active ones, and only `b` is `aria-selected`. */
    ghost predicate Shows(b: nat, p: nat)
      reads this, buttonActive, ariaSelected, panelActive
      requires Valid()
    {
      (forall k | 0 <= k < buttonActive.Length :: buttonActive[k] == (k == b)) &&
      (forall k | 0 <= k < ariaSelected.Length :: ariaSelected[k] == if k == b then "true" else "false") &&
      (forall k | 0 <= k < panelActive.Length :: panelActive[k] == (k == p))
    }

    /**
     * The widget as the page gives it. The handlers are installed only when
     * there is at least one button and one panel (the early return of
     * `initServicesTabs`).
     */
    constructor (tabs: seq<string>, ids: seq<string>, buttons: seq<bool>, selected: seq<string>, panels: seq<bool>)
      requires |tabs| >= 1 && |ids| >= 1
      requires |buttons| == |tabs| && |selected| == |tabs| && |panels| == |ids|
      ensures Valid() && tabOf == tabs && panelIds == ids && focused == 0
      ensures fresh(buttonActive) && fresh(ariaSelected) && fresh(panelActive)
      ensures buttonActive[..] == buttons && ariaSelected[..] == selected && panelActive[..] == panels
    {
      tabOf := tabs;
      panelIds := ids;
      buttonActive := new bool[|buttons|](i requires 0 <= i < |buttons| => buttons[i]);
      ariaSelected := new string[|selected|](i requires 0 <= i < |selected| => selected[i]);
      panelActive := new bool[|panels|](i requires 0 <= i < |panels| => panels[i]);
      focused := 0;
    }

    /**
     * `activateTab(button)`: when the button's panel exists, exactly that
     * button and that panel end up active; when it does not, nothing changes.
     */
    method ActivateTab(b: nat)
      requires Valid() && b < |tabOf|
      modifies buttonActive, ariaSelected, panelActive
      ensures FirstIndex(panelIds, PanelId(tabOf[b])).None? ==>
        buttonActive[..] == old(buttonActive[..]) && ariaSelected[..] == old(ariaSelected[..]) &&
        panelActive[..] == old(panelActive[..])
      ensures FirstIndex(panelIds, PanelId(tabOf[b])).Some? ==>
        Shows(b, FirstIndex(panelIds, PanelId(tabOf[b])).value)
    {
      var target := FirstIndex(panelIds, PanelId(tabOf[b]));
      if target.None? {
        return;
      }
      var k := 0;
      while k < buttonActive.Length
        invariant 0 <= k <= buttonActive.Length
        invariant forall m | 0 <= m < k :: !buttonActive[m] && ariaSelected[m] == "false"
        modifies buttonActive, ariaSelected
      {
        buttonActive[k] := false;
        ariaSelected[k] := "false";
        k := k + 1;
      }
      k := 0;
      while k < panelActive.Length
        invariant 0 <= k <= panelActive.Length
        invariant forall m | 0 <= m < k :: !panelActive[m]
        invariant forall m | 0 <= m < buttonActive.Length :: !buttonActive[m]
        modifies panelActive
      {
        panelActive[k] := false;
        k := k + 1;
      }
      buttonActive[b] := true;
      ariaSelected[b] := "true";
      panelActive[target.value] := true;
    }

    /**
     * The keydown handler on button `b`: for a navigation key, click the
     * next button (activating its tab) and focus it; any other key does
     * nothing.
     */
    method KeyDown(b: nat, key: string)
      requires Valid() && b < |tabOf|
      modifies this`focused, buttonActive, ariaSelected, panelActive
      ensures NextIndex(key, b, |tabOf|).None? ==>
        focused == old(focused) && buttonActive[..] == old(buttonActive[..]) &&
        ariaSelected[..] == old(ariaSelected[..]) && panelActive[..] == old(panelActive[..])
      ensures NextIndex(key, b, |tabOf|).Some? ==>
        var next := NextIndex(key, b, |tabOf|).value;
        focused == next &&
        match FirstIndex(panelIds, PanelId(tabOf[next]))
        case None =>
          buttonActive[..] == old(buttonActive[..]) && ariaSelected[..] == old(ariaSelected[..]) &&
          panelActive[..] == old(panelActive[..])
        case Some(p) => Shows(next, p)
    {
      var next := NextIndex(key, b, |tabOf|);
      if next.Some? {
        ActivateTab(next.value);
        focused := next.value;
      }
    }
  }
}
