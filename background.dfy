/** The background script: which tab is current and which was current before
    it, and the routing of commands and runtime messages. Browser calls are
    returned as effects; `tabs.query` results are passed in as the current
    window's tabs, in tab-strip order. */
module Background {
  import opened Wrappers

  type TabId = nat

  datatype Tab = Tab(id: TabId, windowId: nat)

  datatype Effect =
    | SendToTab(target: Option<TabId>, action: string)  // `tabs.sendMessage(currTabId, { action })`
    | FocusTab(target: Option<TabId>)                   // `tabs.get` then `windows.update` and `tabs.update`
    | ActivateTab(tabId: TabId)                        // `tabs.update(id, { active: true })`
    | GoBack                                           // `tabs.goBack()`
    | GoForward                                        // `tabs.goForward()`
    | TypeError                                        // reading `.id` of a missing `tabs[idx]`
    | NoEffect

  /** `currTabId` and `prevTabId`. */
  datatype TabFocus = TabFocus(curr: Option<TabId>, prev: Option<TabId>)

  /** The actions forwarded unchanged to the current tab. */
  const ForwardedActions: seq<string> := [
    "scroll-down", "scroll-up", "scroll-to-bottom", "scroll-to-top",
    "copy-href-to-clipboard", "seek-initiate", "unfocus"]

  /** Every action the handler has a case for. */
  const KnownActions: seq<string> := ForwardedActions + [
    "switch-to-prev-tab", "switch-to-right-tab", "switch-to-left-tab",
    "switch-to-first-tab", "switch-to-last-tab", "history-back", "history-forward"]

  /** The `onActivated` listener: the current tab becomes the previous one. */
  function Activated(f: TabFocus, tabId: TabId): (r: TabFocus)
    ensures r.curr == Some(tabId) && r.prev == f.curr
  {
    TabFocus(Some(tabId), f.curr)
  }

  /** Activations in order, from `f`. */
  function ActivateAll(f: TabFocus, ids: seq<TabId>): TabFocus
    decreases |ids|
  {
    if ids == [] then f else ActivateAll(Activated(f, ids[0]), ids[1..])
  }

  /** After any run of activations, the current tab is the last one activated
      and the previous tab the one before it. */
  lemma {:induction false} ActivateAllLastTwo(f: TabFocus, ids: seq<TabId>)
    ensures |ids| >= 1 ==> ActivateAll(f, ids).curr == Some(ids[|ids| - 1])
    ensures |ids| >= 2 ==> ActivateAll(f, ids).prev == Some(ids[|ids| - 2])
    ensures |ids| == 1 ==> ActivateAll(f, ids).prev == f.curr
    ensures ids == [] ==> ActivateAll(f, ids) == f
    decreases |ids|
  {
    if ids != [] {
      ActivateAllLastTwo(Activated(f, ids[0]), ids[1..]);
    }
  }

  /** `tabs.findIndex((tab) => tab.id === currTabId)`; a null id matches nothing. */
  function FindIndex(tabs: seq<Tab>, id: Option<TabId>): (r: int)
    ensures -1 <= r < |tabs|
    ensures r == -1 <==> forall i :: 0 <= i < |tabs| ==> Some(tabs[i].id) != id
    ensures r >= 0 ==> Some(tabs[r].id) == id && forall i :: 0 <= i < r ==> Some(tabs[i].id) != id
  {
    if tabs == [] then -1
    else if Some(tabs[0].id) == id then 0
    else
      var r := FindIndex(tabs[1..], id);
      if r == -1 then -1 else r + 1
  }

  function RightIndex(currIdx: int, len: int): (r: int)
    ensures 0 <= currIdx < len ==> 0 <= r < len
  {
    if currIdx == len - 1 then 0 else currIdx + 1
  }

  function LeftIndex(currIdx: int, len: int): (r: int)
    ensures 0 <= currIdx < len ==> 0 <= r < len
  {
    if currIdx == 0 then len - 1 else currIdx - 1
  }

  /** `tabs[idx].id` handed to `tabs.update`; an index outside the array reads
      `undefined` and throws. */
  function ActivateAt(tabs: seq<Tab>, idx: int): (r: Effect)
    ensures r.ActivateTab? <==> 0 <= idx < |tabs|
    ensures r.ActivateTab? ==> r.tabId == tabs[idx].id
    ensures !r.ActivateTab? ==> r == TypeError
  {
    if 0 <= idx < |tabs| then ActivateTab(tabs[idx].id) else TypeError
  }

  /** `handleMessageOrCommand`. */
  function HandleMessageOrCommand(action: string, f: TabFocus, tabs: seq<Tab>): (r: Effect)
    ensures r.SendToTab? ==> r.target == f.curr && r.action == action
    ensures r.FocusTab? ==> r.target == f.prev
    ensures r.ActivateTab? ==> exists i :: 0 <= i < |tabs| && tabs[i].id == r.tabId
  {
    if action == "switch-to-prev-tab" then FocusTab(f.prev)
    else if action == "scroll-down" then SendToTab(f.curr, "scroll-down")
    else if action == "scroll-up" then SendToTab(f.curr, "scroll-up")
    else if action == "switch-to-right-tab" then
      ActivateAt(tabs, RightIndex(FindIndex(tabs, f.curr), |tabs|))
    else if action == "switch-to-left-tab" then
      ActivateAt(tabs, LeftIndex(FindIndex(tabs, f.curr), |tabs|))
    else if action == "switch-to-first-tab" then ActivateAt(tabs, 0)
    else if action == "switch-to-last-tab" then ActivateAt(tabs, |tabs| - 1)
    else if action == "scroll-to-bottom" then SendToTab(f.curr, "scroll-to-bottom")
    else if action == "scroll-to-top" then SendToTab(f.curr, "scroll-to-top")
    else if action == "copy-href-to-clipboard" then SendToTab(f.curr, "copy-href-to-clipboard")
    else if action == "seek-initiate" then SendToTab(f.curr, "seek-initiate")
    else if action == "unfocus" then SendToTab(f.curr, "unfocus")
    else if action == "history-back" then GoBack
    else if action == "history-forward" then GoForward
    else NoEffect
  }

  /** Where a message or command comes from. */
  datatype Source = RuntimeMessage(requestAction: string) | KeyboardCommand(command: string)

  function ActionOf(src: Source): string
  {
    match src
    case RuntimeMessage(a) => a
    case KeyboardCommand(c) => c
  }

  // ---------------------------------------------------------------------------
  // Properties

  /** Right switching wraps from the last tab to the first and otherwise moves
      one to the right: it is the successor modulo the tab count. */
  lemma RightIndexWraps(currIdx: int, len: int)
    requires 0 <= currIdx < len
    ensures 0 <= RightIndex(currIdx, len) < len
    ensures RightIndex(currIdx, len) == (currIdx + 1) % len
  {
  }

  /** Left switching wraps from the first tab to the last: the predecessor
      modulo the tab count. */
  lemma LeftIndexWraps(currIdx: int, len: int)
    requires 0 <= currIdx < len
    ensures 0 <= LeftIndex(currIdx, len) < len
    ensures LeftIndex(currIdx, len) == (currIdx - 1) % len
  {
  }

  /** Left and right undo each other on every valid index. */
  lemma LeftRightInverse(currIdx: int, len: int)
    requires 0 <= currIdx < len
    ensures LeftIndex(RightIndex(currIdx, len), len) == currIdx
    ensures RightIndex(LeftIndex(currIdx, len), len) == currIdx
  {
  }

  /** Unfolding steps only: the four index-based switches, read off the
      handler two at a time, so that the lemmas below need not unfold it
      themselves. */
  lemma SwitchNeighbourCases(f: TabFocus, tabs: seq<Tab>)
    ensures HandleMessageOrCommand("switch-to-right-tab", f, tabs) ==
      ActivateAt(tabs, RightIndex(FindIndex(tabs, f.curr), |tabs|))
    ensures HandleMessageOrCommand("switch-to-left-tab", f, tabs) ==
      ActivateAt(tabs, LeftIndex(FindIndex(tabs, f.curr), |tabs|))
  {
  }

  lemma SwitchEndCases(f: TabFocus, tabs: seq<Tab>)
    ensures HandleMessageOrCommand("switch-to-first-tab", f, tabs) == ActivateAt(tabs, 0)
    ensures HandleMessageOrCommand("switch-to-last-tab", f, tabs) == ActivateAt(tabs, |tabs| - 1)
  {
  }

  /** When the current tab is in the window, right/left switching activate its
      cyclic neighbour, and first/last switching activate the ends. */
  lemma SwitchTargets(f: TabFocus, tabs: seq<Tab>, k: nat)
    requires k < |tabs| && FindIndex(tabs, f.curr) == k
    ensures HandleMessageOrCommand("switch-to-right-tab", f, tabs) == ActivateTab(tabs[(k + 1) % |tabs|].id)
    ensures HandleMessageOrCommand("switch-to-left-tab", f, tabs) == ActivateTab(tabs[(k - 1) % |tabs|].id)
    ensures HandleMessageOrCommand("switch-to-first-tab", f, tabs) == ActivateTab(tabs[0].id)
    ensures HandleMessageOrCommand("switch-to-last-tab", f, tabs) == ActivateTab(tabs[|tabs| - 1].id)
  {
    SwitchNeighbourCases(f, tabs);
    SwitchEndCases(f, tabs);
    RightIndexWraps(k, |tabs|);
    LeftIndexWraps(k, |tabs|);
  }

  /** When the current tab is not in the window (no tab activated yet, or it
      lives in another window), right switching lands on the first tab but
      left switching computes index -2 and throws. */
  lemma SwitchFromUnknownTab(f: TabFocus, tabs: seq<Tab>)
    requires |tabs| > 0 && FindIndex(tabs, f.curr) == -1
    ensures HandleMessageOrCommand("switch-to-right-tab", f, tabs) == ActivateTab(tabs[0].id)
    ensures HandleMessageOrCommand("switch-to-left-tab", f, tabs) == TypeError
  {
    SwitchNeighbourCases(f, tabs);
  }

  /** With no tabs in the window every index-based switch throws. */
  lemma SwitchInEmptyWindow(f: TabFocus)
    ensures HandleMessageOrCommand("switch-to-right-tab", f, []) == TypeError
    ensures HandleMessageOrCommand("switch-to-left-tab", f, []) == TypeError
    ensures HandleMessageOrCommand("switch-to-first-tab", f, []) == TypeError
    ensures HandleMessageOrCommand("switch-to-last-tab", f, []) == TypeError
  {
    SwitchNeighbourCases(f, []);
    SwitchEndCases(f, []);
  }

  /** The page-level actions go, unchanged, to the current tab, and only they do. */
  lemma ForwardedUnchanged(action: string, f: TabFocus, tabs: seq<Tab>)
    ensures action in ForwardedActions <==>
      HandleMessageOrCommand(action, f, tabs) == SendToTab(f.curr, action)
  {
  }

  /** An action the handler has no case for has no effect; a known one has some. */
  lemma UnknownActionIgnored(action: string, f: TabFocus, tabs: seq<Tab>)
    ensures action !in KnownActions <==> HandleMessageOrCommand(action, f, tabs) == NoEffect
  {
  }

  class BackgroundScript {
    var currTabId: Option<TabId>
    var prevTabId: Option<TabId>

    function Focus(): TabFocus
      reads this
    {
      TabFocus(currTabId, prevTabId)
    }

    constructor ()
      ensures Focus() == TabFocus(None, None)
    {
      currTabId := None;
      prevTabId := None;
    }

    /** `tabs.onActivated`. */
    method OnActivated(tabId: TabId)
      modifies this
      ensures Focus() == Activated(old(Focus()), tabId)
    {
      prevTabId := currTabId;
      currTabId := Some(tabId);
    }

    /** `runtime.onMessage` and `commands.onCommand`: both hand the action string
        to the same handler; `tabs` is the current window's tab list. */
    method OnMessageOrCommand(src: Source, tabs: seq<Tab>) returns (effect: Effect)
      ensures effect == HandleMessageOrCommand(ActionOf(src), Focus(), tabs)
      ensures ActionOf(src) in ForwardedActions ==> effect == SendToTab(currTabId, ActionOf(src))
      ensures ActionOf(src) !in KnownActions ==> effect == NoEffect
    {
      ForwardedUnchanged(ActionOf(src), Focus(), tabs);
      UnknownActionIgnored(ActionOf(src), Focus(), tabs);
      match src
      case RuntimeMessage(action) =>
        effect := HandleMessageOrCommand(action, Focus(), tabs);
      case KeyboardCommand(command) =>
        effect := HandleMessageOrCommand(command, Focus(), tabs);
    }
  }
}
