# vim-js keyboard engine — a Dafny model

This project models the core of a browser extension that drives pages from the
keyboard, vim style. It covers two scripts.

The **content script** (`content.js`) runs inside the page. Its keydown listener
works as a small state machine with three parts:

- A two-key buffer (`firstKey`) serves the keymaps `gg` (scroll to top) and
  `yy` (copy the page address). A 2000 ms timer abandons a lone first key.
- Single keys `H`, `L` and `G` send commands to the background script. `s`
  starts seek mode.
- Seek mode renders an overlay over every clickable element that lies fully
  inside the viewport. The first 702 overlays carry the catalog's two-character
  labels in order, and any further one carries no text. Seek mode takes the
  next one or two keys as a label.
  `Escape` cancels it.

The content script also keeps a stack of toasts. Each toast is pinned 60 pixels
above the one below it, and the stack closes up when a toast expires. The
labels come from a fixed catalog of 702 pairs of distinct characters drawn from
the pool `fjdkslgha;rueiwotyqpvbcnxmz`.

The **background script** (`background.js`) records the current and previous
tab on every activation. It routes each action string to one of these:

- a tab switch (previous, right, left, first, last), with wrap-around index
  arithmetic;
- a message forwarded unchanged to the current tab;
- history navigation.

Runtime messages and keyboard commands both go through this one handler.

Layout:

- `labels.dfy` (`Labels`): the pool, the catalog as a function, and `GenLabels`.
  `GenLabels` is the nested loop proved equal to the catalog. The module also
  proves the catalog's size, shape, distinctness and completeness.
- `visibility.dfy` (`Visibility`): the viewport filter over integer rectangles,
  and the pairing of candidates with labels.
- `toasts.dfy` (`Toasts`): the `ToastStack` class (`activeToasts` with push,
  splice and re-offset).
- `keyboard.dfy` (`Keyboard`): the keydown engine as a pure transition from
  (state, event) to (state, effects). Effects are `sendMessage`, toasts and
  timer arm/clear. The first-key timeout is an event. The module holds the
  invariant, the per-key properties and the browser-test scenarios as lemmas.
- `content_script.dfy` (`ContentScript`): the class whose fields are the
  script's module-level variables. Each handler is proved to move them as
  `Keyboard.Step` says, and to push the toasts the step emits.
- `background.js` is modelled in `background.dfy` (`Background`): the
  `onActivated` update, the index choices, the dispatch function and the
  `BackgroundScript` class.
- `extension.dfy` (`Extension`): how a command the page sends is routed by the
  background script.
- `wrappers.dfy` (`Wrappers`): `Option`, standing for nullable fields.

Behaviour of the code worth knowing:

- Both characters of a label come from one 27-character pool, so a label may
  use two keys of the same hand.
- The typing guard runs before the seek check, so seek keys aimed at a text
  field are ignored too.
- The visibility filter keeps an element only when its whole rectangle lies
  inside the viewport.
- Seek mode never checks a label and never clicks or focuses anything. A second
  seek key ends seek even when the pair is no label: it only shows the pair in
  a toast.
- Left switching from a tab that is not in the window computes index -2 and
  throws; right switching from it lands on the first tab.

## Model

| member | source | states |
|---|---|---|
| Labels.LabelAt | content.js:241-244 | the label at position k is two characters long; position k holds (pool[k div 26], the (k mod 26)-th other pool character), as Labels.LabelAtPair states from the other side |
| Labels.Catalog | content.js:237-248 | the closed-form catalog of 702 labels, entry k being LabelAt(k); GenLabels is proved equal to it and CatalogShape, CatalogDistinct and CatalogComplete state its properties |
| Labels.GenLabels | content.js:237-248 | the nested loops, skipping equal characters, produce exactly the catalog, in outer-first-character, inner-second-character order |
| Labels.LabelAtPair | content.js:241-244 | the pair (pool[i], pool[j]) with i ≠ j is the label at position 26·i + (j, or j−1 past i) |
| Labels.CatalogShape | content.js:239-245 | every label has length 2, its two characters differ, and both come from the pool |
| Labels.CatalogDistinct | content.js:241-246 | two positions holding the same label are the same position: all 702 labels are pairwise distinct |
| Labels.PoolFacts | content.js:239 | the pool has 27 characters, no two alike |
| Labels.CatalogPair | content.js:241-246 | the pair of pool positions i ≠ j occurs in the catalog |
| Labels.CatalogComplete | content.js:241-246 | every ordered pair of distinct pool characters occurs in the catalog |
| Visibility.IsClickable | content.js:186-193 | a passing rectangle is non-empty and no wider or taller than the viewport; Visibility.ClickableIffInside gives the exact geometric meaning |
| Visibility.ClickableIffInside | content.js:185-193 | an element passes the filter iff its rectangle is non-empty and every point of it lies inside the viewport |
| Visibility.ClickableElements | content.js:184-194 | the filter keeps exactly the input elements that pass the viewport test, and no more elements than it was given |
| Visibility.ClickableAppend | content.js:184-194 | filtering distributes over concatenation, so the candidates keep their document order |
| Visibility.PairLabels | content.js:195-200 | one overlay per candidate, the i-th pointing at the i-th candidate |
| Visibility.PairLabelsInjective | content.js:195-200 | candidate i gets catalog label i while the catalog lasts and no text after it; distinct candidates get distinct labels |
| Toasts.Offset | content.js:125 | the `bottom` offset of index i is at least 20 px and is 20 px more than a multiple of 60 |
| Toasts.RemoveAt | content.js:144 | `splice(k, 1)` drops exactly entry k: one element shorter, entries below k in place, entries above k moved down one |
| Toasts.StackedSpacing | content.js:125 | in a stacked list the lowest toast is at 20 px and toasts i < j are exactly 60·(j−i) px apart |
| Toasts.IndexOf | content.js:141-142 | −1 exactly when no toast has the identity, else the first position holding it |
| Toasts.Restacked | content.js:147-149 | re-offsetting leaves the identities and texts in place and stacks every toast at the offset of its index |
| Toasts.SplicedRestacked | content.js:144-149 | after removing toast k and re-offsetting, identities stay distinct, toasts below k keep their place, those above move down one, and the texts lose exactly entry k |
| Toasts.ToastStack.constructor | content.js:5 | the stack starts empty |
| Toasts.ToastStack.AddToast | content.js:120-138 | the new toast goes on top, with a fresh identity, at bottom offset 20 + 60·(previous length) |
| Toasts.ToastStack.Restack | content.js:147-149 | the loop sets each toast's offset to that of its index and changes nothing else |
| Toasts.ToastStack.Expire | content.js:140-150 | an absent toast leaves the stack unchanged; otherwise the stack is the splice of that toast, re-offset, and stays valid; the identity counter is unchanged, so a later toast never reuses an earlier identity |
| Keyboard.IsTypeable | content.js:27-33 | the guard holds iff the tag is INPUT, TEXTAREA or SELECT, the role is textbox, or the element is editable |
| Keyboard.IsFirstKeyOfKeymap | content.js:43-45 | a key that starts a two-key keymap has at most two characters; Keyboard.FirstKeyOfKeymapIff lists those keys |
| Keyboard.SingleKeyKeymap | content.js:69-91 | only H, L, G and s do anything, and every action sent is one the engine is known to send |
| Keyboard.TwoKeyKeymap | content.js:97-107 | a sequence has an action iff it is listed in `twoKeyKeymaps`, and that action is one the engine is known to send |
| Keyboard.ResetSeek | content.js:15-22 | seek off, both label keys null and no overlays, with the first-key buffer and its timer untouched |
| Keyboard.EnterSeek | content.js:83-88 | seek is on, one overlay is added per clickable element, the buffer and timer are untouched, and the "Waiting for the first key" toast is emitted |
| Keyboard.HandleSeek | content.js:156-171 | one toast and no change to the buffer or timer; from seek mode, seek ends iff the key is Escape or a first label key is already stored |
| Keyboard.OnKeyDown | content.js:26-64 | a guarded target leaves the state alone and emits nothing, and every keydown keeps the invariant |
| Keyboard.OnFirstKeyTimeout | content.js:49-52 | a pending timer empties the buffer; no timer is pending afterwards; seek mode and the overlays are untouched |
| Keyboard.Step | content.js:26-64 | every message any step sends carries one of the five actions the engine knows (switch-to-first-tab, switch-to-last-tab, scroll-to-bottom, scroll-to-top, copy-href-to-clipboard) |
| Keyboard.ToastMessagesAppend | content.js:120-138 | the toasts shown by two effect runs in a row are those of the first run followed by those of the second |
| Keyboard.InitialInv | content.js:7-13 | the initial fields satisfy the invariant, with no buffered key and seek off |
| Keyboard.StepPreservesInv | content.js:26-64 | every keydown or timer event keeps the invariant: a timer is pending iff a key is buffered, no key is buffered in seek, no partial label or overlay outside seek |
| Keyboard.RunPreservesInv | content.js:26-64 | the invariant holds after any sequence of events |
| Keyboard.FirstKeyOfKeymapIff | content.js:43-45 | a key arms the buffer iff it is a prefix of "gg" or "yy": "", "g", "gg", "y" or "yy" |
| Keyboard.TwoKeyKeymapsConsistent | content.js:97-107 | a two-key sequence has an action iff it is listed in `twoKeyKeymaps` |
| Keyboard.GuardedKeyIsInert | content.js:27-35 | a key aimed at INPUT, TEXTAREA, SELECT, a textbox role or an editable region changes nothing and emits nothing, in seek mode too |
| Keyboard.SeekConsumesKey | content.js:37-40 | in seek mode every unguarded key goes to seek handling, leaves the buffer and its timer untouched and emits one toast only |
| Keyboard.FirstKeyBuffers | content.js:42-54 | with an empty buffer, `g` or `y` is buffered, the timer is armed, and nothing is sent |
| Keyboard.SecondKeyDispatches | content.js:58-63 | with a buffered key, the next key clears the timer and empties the buffer, and sends a command iff the pair is "gg" (scroll-to-top) or "yy" (copy-href-to-clipboard) |
| Keyboard.SingleKeyCommands | content.js:55-91 | with an empty buffer: H, L and G send their commands, `s` enters seek with the labelled candidates, and Shift and every other key do nothing |
| Keyboard.EscapeLeavesSeek | content.js:156-161 | Escape in seek mode clears seek, both label keys and the overlays |
| Keyboard.LabelKeys | content.js:163-170 | the first label key is stored; any next non-Escape key ends seek with a full reset, whether or not the pair is a label |
| Keyboard.SeekEndsWithinTwoKeys | content.js:156-171 | seek mode is off after the first or the second unguarded key, when the first key is non-empty |
| Keyboard.TimeoutClearsFirstKey | content.js:49-52 | the first-key timer empties the buffer and shows a toast naming the cleared key |
| Keyboard.EnterSeekRendersCandidates | content.js:83-88 | entering seek renders one overlay per clickable element, labelled from the catalog in order |
| Keyboard.GgScrollsToTop | tests/extension.spec.js:72-88 | `g g` from the initial state arms, clears the timer and sends scroll-to-top |
| Keyboard.YyCopiesHref | tests/extension.spec.js:133-148 | `y y` from the initial state sends copy-href-to-clipboard |
| Keyboard.ShiftGScrollsToBottom | tests/extension.spec.js:46-51 | Shift then G sends only scroll-to-bottom |
| Keyboard.TimedOutPrefixSendsNothing | content.js:42-54 | `g`, the timeout, then `g` sends nothing and leaves `g` buffered again |
| ContentScript.ContentScript.constructor | content.js:3-13 | the catalog is generated and all fields start empty |
| ContentScript.ContentScript.Notify | content.js:120-138 | a toast is pushed and reported as an effect |
| ContentScript.ContentScript.ResetSeekState | content.js:15-22 | seek off, both label keys null, overlay list empty, the rest unchanged |
| ContentScript.ContentScript.AddLabelElements | content.js:173-229 | the overlays of the labelled clickable candidates are pushed onto the overlay list |
| ContentScript.ContentScript.HandleSeek | content.js:156-171 | the fields and effects are those of the seek step, and its toasts are pushed |
| ContentScript.ContentScript.HandleSingleKeyKeymap | content.js:69-91 | the fields and effects follow the single-key switch, and the toasts are pushed |
| ContentScript.ContentScript.OnKeyDown | content.js:26-64 | the fields and effects are exactly those of the keydown step, the invariant is kept, and the emitted toasts are pushed |
| ContentScript.ContentScript.OnFirstKeyTimeout | content.js:49-52 | the fields and effects are those of the timeout step |
| ContentScript.ContentScript.OnMessage | content.js:109-115 | `show-toast` pushes its message; any other action does nothing |
| ContentScript.ContentScript.OnToastTimeout | content.js:140-150 | an absent toast changes nothing; otherwise exactly that toast's text leaves the stack |
| Background.Activated | background.js:6-9 | the activated tab becomes curr and the old curr becomes prev |
| Background.RightIndex | background.js:46-49 | from an index in range, the right index is in range; Background.RightIndexWraps gives its value |
| Background.LeftIndex | background.js:57-60 | from an index in range, the left index is in range; Background.LeftIndexWraps gives its value |
| Background.ActivateAt | background.js:50-73 | `tabs.update(tabs[idx].id)` activates tab idx iff idx is in range and throws otherwise |
| Background.HandleMessageOrCommand | background.js:22-116 | a forwarded message goes to curr with the action unchanged, a focus goes to prev, and an activated tab is always one of the window's tabs |
| Background.ActivateAllLastTwo | background.js:6-9 | after any run of activations, curr is the last tab activated and prev the one before it |
| Background.FindIndex | background.js:45 | −1 iff no tab has the current id (always for a null id), else the first tab with that id |
| Background.RightIndexWraps | background.js:46-49 | for 0 ≤ currIdx < len, the right index is in range and equals (currIdx + 1) mod len |
| Background.LeftIndexWraps | background.js:57-60 | for 0 ≤ currIdx < len, the left index is in range and equals (currIdx − 1) mod len |
| Background.LeftRightInverse | background.js:43-63 | left and right switching undo each other on every valid index |
| Background.SwitchTargets | background.js:43-76 | with the current tab found at k, right/left activate tab (k±1) mod len, first/last activate tabs 0 and len−1 |
| Background.SwitchFromUnknownTab | background.js:43-63 | with the current tab not in the window, right switching activates the first tab and left switching throws |
| Background.SwitchInEmptyWindow | background.js:43-76 | with no tabs every index-based switch throws |
| Background.ForwardedUnchanged | background.js:31-106 | an action is sent unchanged to the current tab iff it is one of the seven page-level actions |
| Background.UnknownActionIgnored | background.js:22-116 | an action has no effect iff the handler has no case for it |
| Background.BackgroundScript.constructor | background.js:3-4 | both tab ids start null |
| Background.BackgroundScript.OnActivated | background.js:6-9 | prev becomes the old curr and curr the activated tab |
| Background.BackgroundScript.OnMessageOrCommand | background.js:11-17 | a runtime message and a keyboard command share one handler: both listeners give its effect for the action string; page-level actions go to curr, unknown ones do nothing |
| Extension.SingleKeysReachBackground | content.js:69-82 | H activates the window's first tab, L its last tab, and G makes the current tab scroll to the bottom |
| Extension.SentActionsAreRouted | content.js:69-107 | every action a keydown step sends is one the background handler has a case for, so it never falls through to nothing |
| Extension.TwoKeyCommandsForwarded | content.js:97-107 | a completed `gg` or `yy` sends an action that the background forwards unchanged to the current tab |

## Left out

- DOM rendering is not modelled. This covers element and overlay creation,
  style assignment, `appendChild`/`remove` (including `removeLabelElements`),
  `createRange` and `getComputedStyle`. Only the overlay and toast lists and
  the toast offsets are modelled.
- Bounding rectangles are abstract integer rectangles, because floating point
  is out of scope. `right` and `bottom` are derived from origin and size.
- A toast's DOM-node identity is modelled as a fresh number, because
  `indexOf` compares nodes by identity.
- Timers are events delivered in any order. The 2000 ms durations and real time
  are not modelled.
- Browser APIs are returned as effect values and never run: `runtime.sendMessage`,
  `tabs.sendMessage`, `tabs.query`/`update`/`get`, `windows.update`, `goBack`
  and `goForward`.
- The `tabs.query` result is a parameter: the current window's tabs in
  tab-strip order. The callback's later read of `currTabId` is taken at
  dispatch time, so asynchronous interleaving is not modelled.
- The page-side handling of forwarded actions (`scroll-down`, `scroll-to-top`
  and the rest) is not modelled. `content.js` only listens for `show-toast`.
  scripts/content.js is not part of this model.
- Keyboard.LabelKeys: requires a non-empty first key. An empty key string is
  falsy in JavaScript, so a following key is stored as the first label key
  again and seek stays on.
- Keyboard.SeekEndsWithinTwoKeys: requires a non-empty first key, for the same
  reason.
- The browser tests, `playwright.config.js` and the two manifest generators
  are left out. They are test harnesses and file I/O.
