/** The content script's keydown engine as a transition function from
    (state, event) to (state, emitted effects): the two-key buffer, seek mode
    and the single-key commands. Timers are events and effects. */
module Keyboard {
  import opened Wrappers
  import Labels
  import Visibility

  /** The parts of `event.target` the typing guard reads; an absent role is "". */
  datatype Target = Target(tagName: string, role: string, isContentEditable: bool)

  /** What `addLabelElements` finds in the document when seek starts: the
      elements matching the clickable selectors, in document order, and the viewport. */
  datatype Page = Page(elements: seq<Visibility.Element>, viewport: Visibility.Viewport)

  datatype Event =
    | KeyDown(key: string, target: Target, page: Page)
    | FirstKeyTimeout  // the 2000 ms timer armed for the first key of a two-key keymap fires

  datatype Effect =
    | SendMessage(action: string)  // `extension.runtime.sendMessage({ action })`
    | ShowToast(message: string)   // `addToast(message)`
    | ArmTimer                     // `setTimeout(..., 2000)` for the first key
    | ClearTimer                   // `clearTimeout(firstKeyTimeout)`

  /** The module-level fields of the content script that keydown drives. */
  datatype KeyState = KeyState(
    firstKey: Option<string>,
    firstKeyTimerArmed: bool,
    seekActive: bool,
    seekFirstLabelKey: Option<string>,
    seekSecondLabelKey: Option<string>,
    seekLabelElements: seq<Visibility.LabelOverlay>)

  datatype Outcome = Outcome(state: KeyState, effects: seq<Effect>)

  /** The fields as the script initialises them. */
  const Initial: KeyState := KeyState(None, false, false, None, None, [])

  const TwoKeyKeymaps: seq<string> := ["gg", "yy"]

  /** Every action the keydown engine can send to the background script. */
  const SentActions: seq<string> := [
    "switch-to-first-tab", "switch-to-last-tab", "scroll-to-bottom", "scroll-to-top", "copy-href-to-clipboard"]

  const Escape: string := "Escape"
  const Shift: string := "Shift"

  /** The elements whose tag alone makes them typeable. */
  const TypeableTags: seq<string> := ["INPUT", "TEXTAREA", "SELECT"]

  /** The guard: key presses aimed at a text field, an editable region or a
      select box are left to the page. */
  predicate IsTypeable(t: Target)
    ensures IsTypeable(t) <==> t.tagName in TypeableTags || t.role == "textbox" || t.isContentEditable
  {
    || t.tagName == "INPUT"
    || t.tagName == "TEXTAREA"
    || t.role == "textbox"
    || t.isContentEditable
    || t.tagName == "SELECT"
  }

  /** `twoKeyKeymaps.some((keymap) => keymap.startsWith(key))`. */
  predicate IsFirstKeyOfKeymap(key: string)
    ensures IsFirstKeyOfKeymap(key) ==> |key| <= 2
  {
    exists i :: 0 <= i < |TwoKeyKeymaps| && key <= TwoKeyKeymaps[i]
  }

  /** JavaScript truthiness of a nullable string field. */
  predicate Truthy(o: Option<string>)
  {
    o.Some? && o.value != ""
  }

  /** What `handleSingleKeyKeymap` does with a key. */
  datatype SingleKeyAction = Send(action: string) | StartSeek | Ignore

  function SingleKeyKeymap(key: string): (r: SingleKeyAction)
    ensures r != Ignore <==> key in ["H", "L", "G", "s"]
    ensures r.Send? ==> r.action in SentActions
  {
    if key == "H" then Send("switch-to-first-tab")
    else if key == "L" then Send("switch-to-last-tab")
    else if key == "G" then Send("scroll-to-bottom")
    else if key == "s" then StartSeek
    else Ignore
  }

  /** `handleTwoKeyKeymap`: the action for a completed two-key sequence. */
  function TwoKeyKeymap(sequence: string): (r: Option<string>)
    ensures r.Some? <==> sequence in TwoKeyKeymaps
    ensures r.Some? ==> r.value in SentActions
  {
    if sequence == "gg" then Some("scroll-to-top")
    else if sequence == "yy" then Some("copy-href-to-clipboard")
    else None
  }

  /** `resetSeekState`. */
  function ResetSeek(s: KeyState): (r: KeyState)
    ensures !r.seekActive && r.seekFirstLabelKey.None? && r.seekSecondLabelKey.None? && r.seekLabelElements == []
    ensures r.firstKey == s.firstKey && r.firstKeyTimerArmed == s.firstKeyTimerArmed
  {
    s.(seekActive := false, seekFirstLabelKey := None, seekSecondLabelKey := None, seekLabelElements := [])
  }

  /** The `s` branch of `handleSingleKeyKeymap`: toast, render a label per
      clickable element, enter seek mode. */
  function EnterSeek(s: KeyState, page: Page): (o: Outcome)
    ensures o.state.seekActive
    ensures o.state.firstKey == s.firstKey && o.state.firstKeyTimerArmed == s.firstKeyTimerArmed
    ensures |o.state.seekLabelElements| ==
      |s.seekLabelElements| + |Visibility.ClickableElements(page.elements, page.viewport)|
    ensures o.effects == [ShowToast("Waiting for the first key")]
  {
    var clickable := Visibility.ClickableElements(page.elements, page.viewport);
    var overlays := Visibility.PairLabels(clickable, Labels.Catalog());
    Outcome(s.(seekActive := true, seekLabelElements := s.seekLabelElements + overlays),
            [ShowToast("Waiting for the first key")])
  }

  /** `handleSeek`. */
  function HandleSeek(s: KeyState, key: string): (o: Outcome)
    ensures o.state.firstKey == s.firstKey && o.state.firstKeyTimerArmed == s.firstKeyTimerArmed
    ensures |o.effects| == 1 && o.effects[0].ShowToast?
    ensures s.seekActive ==> (!o.state.seekActive <==> key == Escape || Truthy(s.seekFirstLabelKey))
  {
    if key == Escape then
      Outcome(ResetSeek(s), [ShowToast("Exiting seek")])
    else if Truthy(s.seekFirstLabelKey) then
      Outcome(ResetSeek(s.(seekSecondLabelKey := Some(key))),
              [ShowToast("Selected label: " + s.seekFirstLabelKey.value + key)])
    else
      Outcome(s.(seekFirstLabelKey := Some(key)), [ShowToast("Waiting for second label key")])
  }

  /** The keydown listener. */
  function OnKeyDown(s: KeyState, key: string, target: Target, page: Page): (o: Outcome)
    ensures IsTypeable(target) ==> o == Outcome(s, [])
    ensures Inv(s) ==> Inv(o.state)
  {
    if IsTypeable(target) then Outcome(s, [])
    else if s.seekActive then HandleSeek(s, key)
    else if s.firstKey.None? then
      if IsFirstKeyOfKeymap(key) then
        Outcome(s.(firstKey := Some(key), firstKeyTimerArmed := true), [ArmTimer])
      else if key == Shift then Outcome(s, [])
      else
        match SingleKeyKeymap(key)
        case Send(action) => Outcome(s, [SendMessage(action)])
        case StartSeek => EnterSeek(s, page)
        case Ignore => Outcome(s, [])
    else
      var sent := match TwoKeyKeymap(s.firstKey.value + key)
                  case Some(action) => [SendMessage(action)]
                  case None => [];
      Outcome(s.(firstKey := None, firstKeyTimerArmed := false), [ClearTimer] + sent)
  }

  /** How a template literal prints the first-key field. */
  function FirstKeyText(o: Option<string>): string
  {
    match o
    case Some(k) => k
    case None => "null"
  }

  /** The callback of the first-key timer; a cleared timer never fires. */
  function OnFirstKeyTimeout(s: KeyState): (o: Outcome)
    ensures o.state.firstKey.None? || !s.firstKeyTimerArmed
    ensures !o.state.firstKeyTimerArmed
    ensures o.state.seekActive == s.seekActive && o.state.seekLabelElements == s.seekLabelElements
  {
    if s.firstKeyTimerArmed then
      Outcome(s.(firstKey := None, firstKeyTimerArmed := false),
              [ShowToast("Clearing first key: " + FirstKeyText(s.firstKey))])
    else Outcome(s, [])
  }

  function Step(s: KeyState, e: Event): (o: Outcome)
    ensures forall i :: 0 <= i < |o.effects| && o.effects[i].SendMessage? ==> o.effects[i].action in SentActions
  {
    match e
    case KeyDown(key, target, page) => OnKeyDown(s, key, target, page)
    case FirstKeyTimeout => OnFirstKeyTimeout(s)
  }

  /** The toast texts among some effects, in order. */
  function ToastMessages(effects: seq<Effect>): (ms: seq<string>)
    ensures |ms| <= |effects|
  {
    if effects == [] then []
    else (if effects[0].ShowToast? then [effects[0].message] else []) + ToastMessages(effects[1..])
  }

  /** The toasts of two effect runs, one after the other, are those of the
      first run followed by those of the second. */
  lemma {:induction false} ToastMessagesAppend(a: seq<Effect>, b: seq<Effect>)
    ensures ToastMessages(a + b) == ToastMessages(a) + ToastMessages(b)
    decreases |a|
  {
    if a == [] {
      assert a + b == b;
    } else {
      assert (a + b)[0] == a[0];
      assert (a + b)[1..] == a[1..] + b;
      ToastMessagesAppend(a[1..], b);
    }
  }

  /** Events processed in arrival order; effects accumulate in order. */
  function Run(s: KeyState, events: seq<Event>): Outcome
    decreases |events|
  {
    if events == [] then Outcome(s, [])
    else
      var first := Step(s, events[0]);
      var rest := Run(first.state, events[1..]);
      Outcome(rest.state, first.effects + rest.effects)
  }

  /** The relations between the fields that every reachable state keeps: a
      timer is pending exactly while a first key is buffered, no key is
      buffered in seek mode, outside seek mode there is no partial label and
      no overlay, and the second label key never outlives the keydown that
      set it. */
  ghost predicate Inv(s: KeyState)
  {
    && (s.firstKeyTimerArmed <==> s.firstKey.Some?)
    && (s.seekActive ==> s.firstKey.None?)
    && (!s.seekActive ==> s.seekFirstLabelKey.None? && s.seekLabelElements == [])
    && s.seekSecondLabelKey.None?
  }

  // ---------------------------------------------------------------------------
  // Properties

  lemma InitialInv()
    ensures Inv(Initial) && !Initial.seekActive && Initial.firstKey.None?
  {
  }

  lemma StepPreservesInv(s: KeyState, e: Event)
    requires Inv(s)
    ensures Inv(Step(s, e).state)
  {
  }

  lemma {:induction false} RunPreservesInv(s: KeyState, events: seq<Event>)
    requires Inv(s)
    ensures Inv(Run(s, events).state)
    decreases |events|
  {
    if events != [] {
      StepPreservesInv(s, events[0]);
      RunPreservesInv(Step(s, events[0]).state, events[1..]);
    }
  }

  /** The keys that arm the buffer are exactly the prefixes of "gg" and "yy"
      (including the empty string, since every string starts with ""). */
  lemma FirstKeyOfKeymapIff(key: string)
    ensures IsFirstKeyOfKeymap(key) <==>
      key == "" || key == "g" || key == "gg" || key == "y" || key == "yy"
  {
    if key <= "gg" {
      assert |key| <= 2;
      if |key| == 1 { assert key == "g"; }
      else if |key| == 2 { assert key == "gg"; }
    }
    if key <= "yy" {
      if |key| == 1 { assert key == "y"; }
      else if |key| == 2 { assert key == "yy"; }
    }
    if key == "" || key == "g" || key == "gg" { assert key <= TwoKeyKeymaps[0]; }
    if key == "y" || key == "yy" { assert key <= TwoKeyKeymaps[1]; }
  }

  /** The prefix table and the two-key switch agree: every listed keymap has
      an action and only listed keymaps do. */
  lemma TwoKeyKeymapsConsistent(sequence: string)
    ensures TwoKeyKeymap(sequence).Some? <==> sequence in TwoKeyKeymaps
  {
  }

  /** A key aimed at a typeable element changes nothing and emits nothing,
      in seek mode too. */
  lemma GuardedKeyIsInert(s: KeyState, key: string, target: Target, page: Page)
    requires IsTypeable(target)
    ensures Step(s, KeyDown(key, target, page)) == Outcome(s, [])
  {
  }

  /** In seek mode every unguarded key goes to seek handling: the two-key
      buffer and its timer are untouched and only toasts are emitted. */
  lemma SeekConsumesKey(s: KeyState, key: string, target: Target, page: Page)
    requires s.seekActive && !IsTypeable(target)
    ensures var o := Step(s, KeyDown(key, target, page));
      && o == HandleSeek(s, key)
      && o.state.firstKey == s.firstKey
      && o.state.firstKeyTimerArmed == s.firstKeyTimerArmed
      && |o.effects| == 1 && o.effects[0].ShowToast?
  {
  }

  /** With the buffer empty, `g` or `y` is buffered, the timer is armed and
      no command is sent. */
  lemma FirstKeyBuffers(s: KeyState, key: string, target: Target, page: Page)
    requires !s.seekActive && s.firstKey.None? && !IsTypeable(target)
    requires key == "g" || key == "y"
    ensures var o := Step(s, KeyDown(key, target, page));
      && o.state == s.(firstKey := Some(key), firstKeyTimerArmed := true)
      && o.effects == [ArmTimer]
  {
    assert key <= TwoKeyKeymaps[if key == "g" then 0 else 1];
  }

  /** With a key buffered, the next unguarded key clears the timer, empties
      the buffer whatever it is, and sends a command exactly for "gg" and "yy". */
  lemma SecondKeyDispatches(s: KeyState, key: string, target: Target, page: Page, action: string)
    requires !s.seekActive && s.firstKey.Some? && !IsTypeable(target)
    ensures var o := Step(s, KeyDown(key, target, page));
      && o.state.firstKey.None? && !o.state.firstKeyTimerArmed
      && o.state.seekActive == s.seekActive
      && o.effects[0] == ClearTimer
      && (SendMessage(action) in o.effects <==>
            || (s.firstKey.value + key == "gg" && action == "scroll-to-top")
            || (s.firstKey.value + key == "yy" && action == "copy-href-to-clipboard"))
  {
  }

  /** Single keys with an empty buffer: H, L and G send their command, `s`
      enters seek mode, Shift and every other non-prefix key do nothing. */
  lemma SingleKeyCommands(s: KeyState, key: string, target: Target, page: Page)
    requires Inv(s) && !s.seekActive && s.firstKey.None? && !IsTypeable(target)
    requires !IsFirstKeyOfKeymap(key)
    ensures var o := Step(s, KeyDown(key, target, page));
      && (key == "H" ==> o == Outcome(s, [SendMessage("switch-to-first-tab")]))
      && (key == "L" ==> o == Outcome(s, [SendMessage("switch-to-last-tab")]))
      && (key == "G" ==> o == Outcome(s, [SendMessage("scroll-to-bottom")]))
      && (key == "s" ==> o.state.seekActive && o.state.firstKey.None?
                         && o.state.seekLabelElements ==
                              Visibility.PairLabels(
                                Visibility.ClickableElements(page.elements, page.viewport),
                                Labels.Catalog()))
      && (key !in ["H", "L", "G", "s"] ==> o == Outcome(s, []))
  {
  }

  /** Escape in seek mode resets every seek field. */
  lemma EscapeLeavesSeek(s: KeyState, target: Target, page: Page)
    requires s.seekActive && !IsTypeable(target)
    ensures var o := Step(s, KeyDown(Escape, target, page));
      && !o.state.seekActive
      && o.state.seekFirstLabelKey.None? && o.state.seekSecondLabelKey.None?
      && o.state.seekLabelElements == []
      && o.effects == [ShowToast("Exiting seek")]
  {
  }

  /** A first label key is stored; the next key ends seek, whether or not the
      pair is one of the rendered labels. */
  lemma LabelKeys(s: KeyState, k1: string, k2: string, target: Target, page: Page)
    requires Inv(s) && s.seekActive && s.seekFirstLabelKey.None? && !IsTypeable(target)
    requires k1 != Escape && k1 != ""
    ensures var o1 := Step(s, KeyDown(k1, target, page));
      && o1.state.seekActive && o1.state.seekFirstLabelKey == Some(k1)
      && o1.state.seekLabelElements == s.seekLabelElements
      && (k2 != Escape ==>
            var o2 := Step(o1.state, KeyDown(k2, target, page));
            && o2.state == ResetSeek(s)
            && o2.effects == [ShowToast("Selected label: " + k1 + k2)])
  {
  }

  /** Two events in a row. */
  lemma RunTwo(s: KeyState, e1: Event, e2: Event)
    ensures var o1 := Step(s, e1);
      var o2 := Step(o1.state, e2);
      Run(s, [e1, e2]) == Outcome(o2.state, o1.effects + o2.effects)
  {
    var o1 := Step(s, e1);
    var o2 := Step(o1.state, e2);
    assert [e1, e2][1..] == [e2];
    assert [e2][1..] == [];
    assert Run(o1.state, [e2]) == Outcome(o2.state, o2.effects + []);
    assert o2.effects + [] == o2.effects;
  }

  /** Seek mode always ends within two unguarded keys, provided the first one
      is a real (non-empty) key: it is off after the first key or after the
      second. */
  lemma SeekEndsWithinTwoKeys(s: KeyState, k1: string, k2: string, t1: Target, t2: Target, p1: Page, p2: Page)
    requires Inv(s) && s.seekActive && !IsTypeable(t1) && !IsTypeable(t2) && k1 != ""
    ensures var s1 := Step(s, KeyDown(k1, t1, p1)).state;
      !s1.seekActive || !Step(s1, KeyDown(k2, t2, p2)).state.seekActive
  {
    var s1 := Step(s, KeyDown(k1, t1, p1)).state;
    if s1.seekActive {
      assert s1.seekFirstLabelKey == Some(k1);
    }
  }

  /** The timer clears the buffered key and says so. */
  lemma TimeoutClearsFirstKey(s: KeyState)
    requires Inv(s) && s.firstKey.Some?
    ensures var o := Step(s, FirstKeyTimeout);
      && o.state == s.(firstKey := None, firstKeyTimerArmed := false)
      && o.effects == [ShowToast("Clearing first key: " + s.firstKey.value)]
  {
  }

  /** Entering seek from a reachable state renders exactly one overlay per
      clickable element, labelled from the catalog in order. */
  lemma EnterSeekRendersCandidates(s: KeyState, page: Page)
    requires Inv(s) && !s.seekActive
    ensures var o := EnterSeek(s, page);
      var clickable := Visibility.ClickableElements(page.elements, page.viewport);
      && |o.state.seekLabelElements| == |clickable|
      && forall i :: 0 <= i < |clickable| && i < Labels.CatalogSize ==>
           o.state.seekLabelElements[i] ==
             Visibility.LabelOverlay(Some(Labels.Catalog()[i]), clickable[i])
  {
    var clickable := Visibility.ClickableElements(page.elements, page.viewport);
    var overlays := Visibility.PairLabels(clickable, Labels.Catalog());
    var o := EnterSeek(s, page);
    assert o.state.seekLabelElements == s.seekLabelElements + overlays == overlays;
    forall i | 0 <= i < |clickable| && i < Labels.CatalogSize
      ensures overlays[i] == Visibility.LabelOverlay(Some(Labels.Catalog()[i]), clickable[i])
    {
      Visibility.PairLabelsInjective(clickable, i, i);
    }
  }

  // ---------------------------------------------------------------------------
  // Scenarios from the browser tests

  const Body: Target := Target("BODY", "", false)

  function Press(key: string, page: Page): Event
  {
    KeyDown(key, Body, page)
  }

  /** Pressing `g` twice scrolls to the top. */
  lemma GgScrollsToTop(page: Page)
    ensures Run(Initial, [Press("g", page), Press("g", page)]).effects ==
      [ArmTimer, ClearTimer, SendMessage("scroll-to-top")]
  {
    RunTwo(Initial, Press("g", page), Press("g", page));
    FirstKeyBuffers(Initial, "g", Body, page);
    assert "g" + "g" == "gg";
  }

  /** Pressing `y` twice copies the page address. */
  lemma YyCopiesHref(page: Page)
    ensures Run(Initial, [Press("y", page), Press("y", page)]).effects ==
      [ArmTimer, ClearTimer, SendMessage("copy-href-to-clipboard")]
  {
    RunTwo(Initial, Press("y", page), Press("y", page));
    FirstKeyBuffers(Initial, "y", Body, page);
    assert "y" + "y" == "yy";
  }

  /** Shift+G: the Shift keydown is ignored and G scrolls to the bottom. */
  lemma ShiftGScrollsToBottom(page: Page)
    ensures Run(Initial, [Press(Shift, page), Press("G", page)]).effects ==
      [SendMessage("scroll-to-bottom")]
  {
    RunTwo(Initial, Press(Shift, page), Press("G", page));
    FirstKeyOfKeymapIff(Shift);
    FirstKeyOfKeymapIff("G");
  }

  /** `g`, then the timeout, then `g`: the second `g` only starts a new
      sequence, so no command is sent. */
  lemma TimedOutPrefixSendsNothing(page: Page)
    ensures var o := Run(Initial, [Press("g", page), FirstKeyTimeout, Press("g", page)]);
      && o.effects == [ArmTimer, ShowToast("Clearing first key: g"), ArmTimer]
      && o.state.firstKey == Some("g")
  {
    var es := [Press("g", page), FirstKeyTimeout, Press("g", page)];
    FirstKeyBuffers(Initial, "g", Body, page);
    var s1 := Step(Initial, es[0]).state;
    RunTwo(s1, FirstKeyTimeout, Press("g", page));
    assert es[1..] == [FirstKeyTimeout, Press("g", page)];
    var s2 := Step(s1, FirstKeyTimeout).state;
    assert s2 == Initial;
    FirstKeyBuffers(s2, "g", Body, page);
    var o1 := Step(Initial, es[0]);
    var rest := Run(s1, es[1..]);
    assert Run(Initial, es) == Outcome(rest.state, o1.effects + rest.effects);
    assert o1.effects == [ArmTimer];
    assert s1.firstKey == Some("g");
    assert "Clearing first key: " + "g" == "Clearing first key: g";
  }
}
