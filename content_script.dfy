/** The content script as the object it is: the module-level fields that the
    keydown listener, the timers and the message listener update in place.
    Each handler is proved to move the fields exactly as `Keyboard.Step` says. */
module ContentScript {
  import opened Wrappers
  import Labels
  import Visibility
  import Toasts
  import opened Keyboard

  /** A runtime message sent to the page; only `show-toast` is handled. */
  datatype Request = Request(action: string, message: string)

  class ContentScript {
    const labels: seq<string>
    const toastStack: Toasts.ToastStack

    var firstKey: Option<string>
    var firstKeyTimerArmed: bool
    var seekActive: bool
    var seekFirstLabelKey: Option<string>
    var seekSecondLabelKey: Option<string>
    var seekLabelElements: seq<Visibility.LabelOverlay>

    function State(): KeyState
      reads this
    {
      KeyState(firstKey, firstKeyTimerArmed, seekActive, seekFirstLabelKey, seekSecondLabelKey, seekLabelElements)
    }

    function ToastTexts(): seq<string>
      reads toastStack
    {
      Toasts.Messages(toastStack.activeToasts)
    }

    ghost predicate Valid()
      reads this, toastStack
    {
      && toastStack.Valid()
      && labels == Labels.Catalog()
      && Inv(State())
    }

    /** Script load: the label catalog is generated and every field starts empty. */
    constructor ()
      ensures Valid() && fresh(toastStack)
      ensures State() == Initial && toastStack.activeToasts == []
    {
      var catalog := Labels.GenLabels();
      var stack := new Toasts.ToastStack();
      labels := catalog;
      toastStack := stack;
      firstKey := None;
      firstKeyTimerArmed := false;
      seekActive := false;
      seekFirstLabelKey := None;
      seekSecondLabelKey := None;
      seekLabelElements := [];
    }

    /** `addToast(message)` as the keydown handlers use it. */
    method Notify(message: string) returns (effect: Effect)
      requires toastStack.Valid()
      modifies toastStack
      ensures toastStack.Valid()
      ensures effect == ShowToast(message)
      ensures ToastTexts() == old(ToastTexts()) + [message]
    {
      var _ := toastStack.AddToast(message);
      effect := ShowToast(message);
      assert toastStack.activeToasts[..|old(toastStack.activeToasts)|] == old(toastStack.activeToasts);
      assert Toasts.Messages(toastStack.activeToasts) == old(ToastTexts()) + [message];
    }

    method ResetSeekState()
      modifies this
      ensures State() == ResetSeek(old(State()))
    {
      seekActive := false;
      seekFirstLabelKey := None;
      seekSecondLabelKey := None;
      seekLabelElements := [];
    }

    /** `addLabelElements`: filter the candidates, pair them with labels and
        push one overlay per candidate. */
    method AddLabelElements(page: Page)
      modifies this
      ensures State() == old(State()).(seekLabelElements := old(seekLabelElements) +
        Visibility.PairLabels(Visibility.ClickableElements(page.elements, page.viewport), labels))
    {
      var clickable := Visibility.ClickableElements(page.elements, page.viewport);
      var withLabels := Visibility.PairLabels(clickable, labels);
      var i := 0;
      while i < |withLabels|
        invariant 0 <= i <= |withLabels|
        invariant State() == old(State()).(seekLabelElements := old(seekLabelElements) + withLabels[..i])
      {
        seekLabelElements := seekLabelElements + [withLabels[i]];
        i := i + 1;
        assert withLabels[..i] == withLabels[..i - 1] + [withLabels[i - 1]];
      }
      assert withLabels[..i] == withLabels;
    }

    method HandleSeek(key: string) returns (effects: seq<Effect>)
      requires Valid() && seekActive
      modifies this, toastStack
      ensures Valid()
      ensures Outcome(State(), effects) == Keyboard.HandleSeek(old(State()), key)
      ensures ToastTexts() == old(ToastTexts()) + ToastMessages(effects)
    {
      var effect;
      if key == Escape {
        ResetSeekState();
        effect := Notify("Exiting seek");
      } else if seekFirstLabelKey.Some? && seekFirstLabelKey.value != "" {
        seekSecondLabelKey := Some(key);
        effect := Notify("Selected label: " + seekFirstLabelKey.value + key);
        ResetSeekState();
      } else {
        effect := Notify("Waiting for second label key");
        seekFirstLabelKey := Some(key);
      }
      effects := [effect];
    }

    /** `handleSingleKeyKeymap`, with the key's meaning taken from the
        `SingleKeyKeymap` switch. */
    method HandleSingleKeyKeymap(key: string, page: Page) returns (effects: seq<Effect>)
      requires Valid() && !seekActive && firstKey.None?
      modifies this, toastStack
      ensures Valid()
      ensures var o := match SingleKeyKeymap(key)
                       case Send(action) => Outcome(old(State()), [SendMessage(action)])
                       case StartSeek => EnterSeek(old(State()), page)
                       case Ignore => Outcome(old(State()), []);
        Outcome(State(), effects) == o
      ensures ToastTexts() == old(ToastTexts()) + ToastMessages(effects)
    {
      match SingleKeyKeymap(key)
      case Send(action) =>
        effects := [SendMessage(action)];
      case StartSeek =>
        var effect := Notify("Waiting for the first key");
        AddLabelElements(page);
        seekActive := true;
        effects := [effect];
      case Ignore =>
        effects := [];
    }

    /** The keydown listener. */
    method OnKeyDown(key: string, target: Target, page: Page) returns (effects: seq<Effect>)
      requires Valid()
      modifies this, toastStack
      ensures Valid()
      ensures Outcome(State(), effects) == Step(old(State()), KeyDown(key, target, page))
      ensures ToastTexts() == old(ToastTexts()) + ToastMessages(effects)
    {
      StepPreservesInv(State(), KeyDown(key, target, page));
      if IsTypeable(target) {
        return [];
      }
      if seekActive {
        effects := HandleSeek(key);
        return;
      }
      if firstKey.None? {
        if IsFirstKeyOfKeymap(key) {
          firstKey := Some(key);
          firstKeyTimerArmed := true;
          return [ArmTimer];
        }
        if key == Shift {
          return [];
        }
        effects := HandleSingleKeyKeymap(key, page);
      } else {
        firstKeyTimerArmed := false;
        var sent := match TwoKeyKeymap(firstKey.value + key)
                    case Some(action) => [SendMessage(action)]
                    case None => [];
        effects := [ClearTimer] + sent;
        firstKey := None;
      }
    }

    /** The callback of the first-key timer. */
    method OnFirstKeyTimeout() returns (effects: seq<Effect>)
      requires Valid()
      modifies this, toastStack
      ensures Valid()
      ensures Outcome(State(), effects) == Step(old(State()), FirstKeyTimeout)
      ensures ToastTexts() == old(ToastTexts()) + ToastMessages(effects)
    {
      if !firstKeyTimerArmed {
        return [];
      }
      var effect := Notify("Clearing first key: " + FirstKeyText(firstKey));
      firstKey := None;
      firstKeyTimerArmed := false;
      effects := [effect];
    }

    /** The runtime message listener: `show-toast` adds a toast. */
    method OnMessage(request: Request)
      requires Valid()
      modifies toastStack
      ensures Valid()
      ensures ToastTexts() ==
        if request.action == "show-toast" then old(ToastTexts()) + [request.message] else old(ToastTexts())
    {
      if request.action == "show-toast" {
        var _ := Notify(request.message);
      }
    }

    /** The expiry timer of the toast `id`. */
    method OnToastTimeout(id: nat)
      requires Valid()
      modifies toastStack
      ensures Valid()
      ensures var k := Toasts.IndexOf(old(toastStack.activeToasts), id);
        ToastTexts() == if k == -1 then old(ToastTexts())
                        else old(ToastTexts())[..k] + old(ToastTexts())[k + 1..]
    {
      var k := Toasts.IndexOf(toastStack.activeToasts, id);
      if k != -1 {
        Toasts.SplicedRestacked(toastStack.activeToasts, k, toastStack.nextId);
      }
      toastStack.Expire(id);
    }
  }
}
