/** The two scripts together: a command the page sends with
    `runtime.sendMessage` is routed by the background handler. */
module Extension {
  import opened Wrappers
  import Keyboard
  import Background

  /** The background effect of one content-script effect; effects other than
      `sendMessage` never leave the page. */
  function Deliver(e: Keyboard.Effect, f: Background.TabFocus, tabs: seq<Background.Tab>): Background.Effect
  {
    match e
    case SendMessage(action) =>
      Background.HandleMessageOrCommand(Background.ActionOf(Background.RuntimeMessage(action)), f, tabs)
    case _ => Background.NoEffect
  }

  /** From a state with no buffered key and no seek, H activates the window's
      first tab, L its last tab, and G makes the current tab scroll to the bottom. */
  lemma SingleKeysReachBackground(s: Keyboard.KeyState, target: Keyboard.Target, page: Keyboard.Page,
                                  f: Background.TabFocus, tabs: seq<Background.Tab>)
    requires Keyboard.Inv(s) && !s.seekActive && s.firstKey.None? && !Keyboard.IsTypeable(target)
    requires |tabs| > 0
    ensures var o := Keyboard.Step(s, Keyboard.KeyDown("H", target, page));
      |o.effects| == 1 && Deliver(o.effects[0], f, tabs) == Background.ActivateTab(tabs[0].id)
    ensures var o := Keyboard.Step(s, Keyboard.KeyDown("L", target, page));
      |o.effects| == 1 && Deliver(o.effects[0], f, tabs) == Background.ActivateTab(tabs[|tabs| - 1].id)
    ensures var o := Keyboard.Step(s, Keyboard.KeyDown("G", target, page));
      |o.effects| == 1 && Deliver(o.effects[0], f, tabs) == Background.SendToTab(f.curr, "scroll-to-bottom")
  {
    Keyboard.FirstKeyOfKeymapIff("H");
    Keyboard.FirstKeyOfKeymapIff("L");
    Keyboard.FirstKeyOfKeymapIff("G");
    assert Keyboard.Step(s, Keyboard.KeyDown("H", target, page)).effects ==
      [Keyboard.SendMessage("switch-to-first-tab")];
    assert Keyboard.Step(s, Keyboard.KeyDown("L", target, page)).effects ==
      [Keyboard.SendMessage("switch-to-last-tab")];
    assert Keyboard.Step(s, Keyboard.KeyDown("G", target, page)).effects ==
      [Keyboard.SendMessage("scroll-to-bottom")];
    Background.SwitchEndCases(f, tabs);
    Background.ForwardedUnchanged("scroll-to-bottom", f, tabs);
  }

  /** A completed `gg` or `yy` sends an action the background forwards,
      unchanged, to the current tab. */
  lemma TwoKeyCommandsForwarded(s: Keyboard.KeyState, key: string, target: Keyboard.Target, page: Keyboard.Page,
                                f: Background.TabFocus, tabs: seq<Background.Tab>)
    requires !s.seekActive && s.firstKey.Some? && !Keyboard.IsTypeable(target)
    requires s.firstKey.value + key in Keyboard.TwoKeyKeymaps
    ensures var o := Keyboard.Step(s, Keyboard.KeyDown(key, target, page));
      && |o.effects| == 2
      && o.effects[1].SendMessage?
      && Deliver(o.effects[1], f, tabs) == Background.SendToTab(f.curr, o.effects[1].action)
  {
    var o := Keyboard.Step(s, Keyboard.KeyDown(key, target, page));
    Background.ForwardedUnchanged(o.effects[1].action, f, tabs);
  }

  /** Every action the page can send is one the background has a case for, so
      nothing the keydown engine emits is dropped by the router. */
  lemma SentActionsAreRouted(s: Keyboard.KeyState, e: Keyboard.Event, i: nat,
                             f: Background.TabFocus, tabs: seq<Background.Tab>)
    requires i < |Keyboard.Step(s, e).effects| && Keyboard.Step(s, e).effects[i].SendMessage?
    ensures Keyboard.Step(s, e).effects[i].action in Background.KnownActions
    ensures Deliver(Keyboard.Step(s, e).effects[i], f, tabs) != Background.NoEffect
  {
    var a := Keyboard.Step(s, e).effects[i].action;
    assert a in Keyboard.SentActions;
    Background.UnknownActionIgnored(a, f, tabs);
  }
}
