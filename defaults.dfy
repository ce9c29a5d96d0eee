/**
 * What the default table does end to end: the input a record fires, the
 * combo it dispatches, and the key stroke the host receives with focus.
 */
module Defaults {
  import opened Wrappers
  import opened Joystick
  import opened Keys
  import opened Combo
  import opened Config
  import opened Input

  /** A live press of button `n`. */
  function Press(n: byte): JsEvent {
    JsEvent(0, 1, JsEventButton, n)
  }

  lemma PressFires(state: InputState, n: byte)
    requires n as int in ControllerButtons && !IsActive(state, ButtonKey(n))
    ensures HandleEvent(state, Press(n)).edge == Some(ControllerButtons[n as int])
  {
    ButtonEdge(state, Press(n));
  }

  /** The default combo of the A button is a single space, and lands as no key stroke at all. */
  lemma DefaultAButtonSendsNothing(state: InputState, focusPresent: bool)
    requires !IsActive(state, ButtonKey(0))
    ensures HandleEvent(state, Press(0)).edge == Some("A")
    ensures Dispatch(DefaultMappings, "A") == [" "]
    ensures SendKeyEvent(" ", focusPresent) == None
  {
    PressFires(state, 0);
    assert ControllerButtons[0] == ButtonNames[0] == "A";
    DefaultSpaceComboSendsNothing(focusPresent);
  }

  /** The B button dispatches `"Return"`, which lands as a plain Return. */
  lemma DefaultBButtonSendsReturn(state: InputState)
    requires !IsActive(state, ButtonKey(1))
    ensures HandleEvent(state, Press(1)).edge == Some("B")
    ensures Dispatch(DefaultMappings, "B") == ["Return"]
    ensures SendKeyEvent("Return", true) == Some(KeyStroke(Return, false, false, false))
  {
    PressFires(state, 1);
    assert ControllerButtons[1] == ButtonNames[1] == "B";
    DefaultOfB();
    ReturnExample();
  }

  lemma DefaultOfB()
    ensures Dispatch(DefaultMappings, "B") == ["Return"]
  {
  }

  /** The left shoulder dispatches `"Ctrl+Shift+z"`, which lands as Ctrl+Shift+Z. */
  lemma DefaultLeftShoulderSendsRedo(state: InputState)
    requires !IsActive(state, ButtonKey(4))
    ensures HandleEvent(state, Press(4)).edge == Some("LEFT_SHOULDER")
    ensures Dispatch(DefaultMappings, "LEFT_SHOULDER") == ["Ctrl+Shift+z"]
    ensures SendKeyEvent("Ctrl+Shift+z", true) == Some(KeyStroke(CharKey('Z'), true, true, false))
  {
    PressFires(state, 4);
    assert ControllerButtons[4] == ButtonNames[4] == "LEFT_SHOULDER";
    DefaultOfLeftShoulder();
    CtrlShiftZSends();
  }

  lemma DefaultOfLeftShoulder()
    ensures Dispatch(DefaultMappings, "LEFT_SHOULDER") == ["Ctrl+Shift+z"]
  {
  }
}
